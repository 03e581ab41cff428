/**
 * What every bytecode does, byte by byte: the stack, the byte pointer, the objects and the
 * contexts after one step, for all programs and machines, with or without elision.
 */
module Bytecodes {
  import opened Instructions
  import opened Contexts

  // ---- Before and after a step ----

  /** The context at work, whose stack is in order. */
  ghost predicate AtWork(p: Program, m: Machine) {
    && m.Running? && m.current in m.contexts && m.stackTop <= |m.contexts[m.current].stack|
    && m.contexts[m.current].info.methodId in p.methods
  }

  function Self(m: Machine): Context
    requires m.Running? && m.current in m.contexts
  {
    m.contexts[m.current]
  }

  ghost function CodeOf(p: Program, m: Machine): Code
    requires AtWork(p, m)
  {
    p.methods[Self(m).info.methodId].code
  }

  ghost function StackOf(p: Program, m: Machine): seq<Value>
    requires AtWork(p, m)
  {
    Self(m).stack[..m.stackTop]
  }

  /** These bytes stand at the byte pointer. */
  ghost predicate Reads(p: Program, m: Machine, bytes: seq<nat>) {
    && AtWork(p, m) && m.bytePointer + |bytes| <= |CodeOf(p, m)|
    && forall k | 0 <= k < |bytes| :: CodeOf(p, m)[m.bytePointer + k] == bytes[k]
  }

  /** All contexts but these are what they were. */
  ghost predicate Untouched(m: Machine, now: Machine, but: set<nat>)
    requires m.Running? && now.Running?
  {
    forall id | id !in but ::
      && (id in m.contexts <==> id in now.contexts)
      && (id in m.contexts ==> now.contexts[id] == m.contexts[id])
  }

  /** The context at work holds this stack. */
  ghost predicate Holds(now: Machine, stack: seq<Value>) {
    && now.Running? && now.current in now.contexts && now.stackTop == |stack| <= |Self(now).stack|
    && Self(now).stack[..|stack|] == stack
  }

  predicate Has(objects: Objects, address: nat, k: nat) {
    address in objects && k < |objects[address].fields|
  }

  /** An array that is full grows by seven elements. */
  predicate Grown(before: nat, used: nat, after: nat) {
    after == if used <= before then before else before + 7
  }

  /** The context goes on at pc; of all contexts only its own stack may be another. */
  ghost predicate GoesOn(m: Machine, now: Machine, pc: nat, stack: seq<Value>, objects: Objects) {
    && m.Running? && m.current in m.contexts && Holds(now, stack) && now.current == m.current && now.next == m.next
    && now.bytePointer == pc && now.objects == objects && Untouched(m, now, {m.current})
    && Self(now) == Self(m).(stack := Self(now).stack) && Grown(|Self(m).stack|, |stack|, |Self(now).stack|)
  }

  /** The context that a called method goes back to.  When the caller would return next, with 242,
      or from the method of its block, with 243, it is left out. */
  ghost predicate GoesBackTo(p: Program, elide: bool, m: Machine, pc: nat, previous: nat)
    requires AtWork(p, m)
  {
    var code, home := CodeOf(p, m), Self(m).info.creating;
    if elide && pc < |code| && code[pc] == 242 then previous == Self(m).previous
    else if elide && pc < |code| && code[pc] == 243 && home != 0 then
      previous == if home in m.contexts then m.contexts[home].previous else 0
    else previous == m.current
  }

  /** A method has been entered, and its caller suspended at pc. */
  ghost predicate Calls(p: Program, elide: bool, m: Machine, now: Machine, rest: seq<Value>, pc: nat, methodId: nat,
                        arguments: Value, objects: Objects)
    requires AtWork(p, m) && methodId in p.methods
  {
    && Holds(now, []) && now.current == m.next && now.next == m.next + 4 && now.bytePointer == 0
    && var temporaries := p.allocate(objects);
      && now.objects ==
        objects[temporaries := Object(p.arrayClass, seq(p.methods[methodId].temporarySize, _ => p.nilObject))]
      && Self(now).info == Info(methodId, arguments, temporaries, 0, 0, 0)
      && Self(now).stack == seq(p.methods[methodId].stackSize, _ => p.nilObject)
      && GoesBackTo(p, elide, m, pc, Self(now).previous)
      && Untouched(m, now, {m.current, m.next})
      && m.current in now.contexts
      && var caller := now.contexts[m.current];
        && caller.info == Self(m).info && caller.previous == Self(m).previous && caller.bytePointer == pc
        && caller.stackTop == |rest| <= |caller.stack| && caller.stack[..|rest|] == rest
  }

  /** A message has been sent: to the method found for the class, or else to that of
      #doesNotUnderstand:, which gets the receiver and then the selector. */
  ghost predicate Sends(p: Program, elide: bool, m: Machine, now: Machine, rest: seq<Value>, pc: nat, selector: Value,
                        arguments: Value, klass: nat, objects: Objects)
    requires AtWork(p, m)
  {
    var found, bad := p.lookup(selector, klass), p.lookup(p.badMethodSymbol, klass);
    if found != 0 then found in p.methods ==> Calls(p, elide, m, now, rest, pc, found, arguments, objects)
    else
      bad in p.methods && arguments in objects && objects[arguments].fields != [] ==>
        var address := p.allocate(objects);
        Calls(p, elide, m, now, rest, pc, bad, address,
              objects[address := Object(p.arrayClass, [objects[arguments].fields[0], selector])])
  }

  /** The class of a value: of a SmallInteger, a block, another context, or an object. */
  predicate HasClass(p: Program, contexts: Store, objects: Objects, v: Value, klass: nat) {
    if v % 2 == 1 then klass == p.smallIntClass
    else if v in contexts then
      if contexts[v].info.creating != 0 then klass == p.blockClass else klass == p.contextClass
    else v in objects && klass == objects[v].klass
  }

  /** A value has gone to the context `target`, which goes on where it was suspended; or the
      process has ended with it. */
  ghost predicate Hands(m: Machine, now: Machine, target: nat, value: Value, objects: Objects, saves: bool)
    requires m.Running?
  {
    if target == 0 then now == Returned(value, objects)
    else target in m.contexts && m.contexts[target].stackTop <= |m.contexts[target].stack| ==>
      var c := m.contexts[target];
      && Holds(now, c.stack[..c.stackTop] + [value]) && now.current == target && now.next == m.next
      && now.bytePointer == c.bytePointer && now.objects == objects && Untouched(m, now, {target})
      && Self(now).info == c.info && Self(now).previous == c.previous && Self(now).bytePointer == c.bytePointer
      && Self(now).stackTop == if saves then c.stackTop + 1 else c.stackTop
  }

  // ---- How the steps are computed ----

  lemma Fetched(p: Program, m: Machine, i: Instruction, next: nat)
    requires AtWork(p, m) && Spelled(CodeOf(p, m), m.bytePointer, i, next)
    ensures NextEffect(p, m) ==
            Execute(p, SiteOf(m), Frame(Self(m).info, StackOf(p, m), next), i, m.objects)
  {
    DecodesSpelled(CodeOf(p, m), m.bytePointer, i, next);
    hide Execute, Spelled, Complete, InstructionAt, NextOf;
  }

  /** The bytes of an instruction without operands, in either form. */
  lemma Found(p: Program, m: Machine, opcode: nat, k: nat, long: bool)
    requires Reads(p, m, if long then [opcode, k] else [16 * opcode + k]) && (long || k < 16) && 0 < opcode < 16
    requires opcode != 12 && opcode != 13 && (opcode == 15 ==> k != 6 && k != 7 && k != 8 && k != 11)
    ensures NextEffect(p, m) ==
            Execute(p, SiteOf(m), Frame(Self(m).info, StackOf(p, m), m.bytePointer + if long then 2 else 1),
                    Instruction(opcode, k, 0), m.objects)
  {
    hide Execute, NextEffect;
    var code, pc := CodeOf(p, m), m.bytePointer;
    var bytes := if long then [opcode, k] else [16 * opcode + k];
    assert code[pc] == bytes[0] && (long ==> code[pc + 1] == bytes[1]);
    Fetched(p, m, Instruction(opcode, k, 0), pc + if long then 2 else 1);
  }

  /** The bytes of an instruction with one operand. */
  lemma FoundOne(p: Program, m: Machine, opcode: nat, k: nat, x: nat, long: bool)
    requires Reads(p, m, if long then [opcode, k, x] else [16 * opcode + k, x]) && (long || k < 16)
    requires opcode == 13 || (opcode == 15 && k == 11)
    ensures NextEffect(p, m) ==
            Execute(p, SiteOf(m), Frame(Self(m).info, StackOf(p, m), m.bytePointer + if long then 3 else 2),
                    Instruction(opcode, k, x), m.objects)
  {
    hide Execute, NextEffect;
    var code, pc := CodeOf(p, m), m.bytePointer;
    var bytes := if long then [opcode, k, x] else [16 * opcode + k, x];
    assert code[pc] == bytes[0] && code[pc + 1] == bytes[1] && (long ==> code[pc + 2] == bytes[2]);
    Fetched(p, m, Instruction(opcode, k, x), pc + if long then 3 else 2);
  }

  /** The bytes of an instruction with an offset. */
  lemma FoundTwo(p: Program, m: Machine, opcode: nat, k: nat, low: nat, high: nat, long: bool)
    requires Reads(p, m, if long then [opcode, k, low, high] else [16 * opcode + k, low, high]) && (long || k < 16)
    requires opcode == 12 || (opcode == 15 && 6 <= k <= 8)
    ensures NextEffect(p, m) ==
            Execute(p, SiteOf(m), Frame(Self(m).info, StackOf(p, m), m.bytePointer + if long then 4 else 3),
                    Instruction(opcode, k, low + 256 * high), m.objects)
  {
    hide Execute, NextEffect;
    var code, pc := CodeOf(p, m), m.bytePointer;
    var bytes := if long then [opcode, k, low, high] else [16 * opcode + k, low, high];
    assert code[pc] == bytes[0] && code[pc + 1] == bytes[1] && code[pc + 2] == bytes[2];
    assert long ==> code[pc + 3] == bytes[3];
    Fetched(p, m, Instruction(opcode, k, low + 256 * high), pc + if long then 4 else 3);
  }

  lemma Went(p: Program, elide: bool, m: Machine, pc: nat, stack: seq<Value>, objects: Objects)
    requires AtWork(p, m) && NextEffect(p, m) == Go(Frame(Self(m).info, stack, pc), objects)
    requires |stack| <= m.stackTop + 1
    ensures GoesOn(m, Step(p, elide, m), pc, stack, objects)
  {
    hide NextEffect;
    var c := Self(m);
    assert |stack| <= |c.stack| ==> Written(p, c.stack, stack)[..|stack|] == stack;
    assert |stack| > |c.stack| ==> Written(p, c.stack, stack)[..|stack|] == stack;
  }

  lemma Called(p: Program, elide: bool, m: Machine, pc: nat, rest: seq<Value>, methodId: nat, arguments: Value,
               objects: Objects)
    requires AtWork(p, m) && NextEffect(p, m) == Call(Frame(Self(m).info, rest, pc), methodId, arguments, objects)
    requires |rest| <= m.stackTop && methodId in p.methods && m.next !in m.contexts
    ensures Calls(p, elide, m, Step(p, elide, m), rest, pc, methodId, arguments, objects)
  {
    hide NextEffect;
    assert Written(p, Self(m).stack, rest)[..|rest|] == rest;
  }

  lemma Handed(p: Program, elide: bool, m: Machine, target: nat, value: Value, objects: Objects, saves: bool)
    requires m.Running?
    ensures Hands(m, Delivered(p, m, target, value, objects, saves), target, value, objects, saves)
  {
    if target != 0 && target in m.contexts && m.contexts[target].stackTop <= |m.contexts[target].stack| {
      var c := m.contexts[target];
      var used := c.stack[..c.stackTop] + [value];
      assert Written(p, c.stack, used)[..|used|] == used;
    }
  }

  // ---- Pushing and assigning ----

  /** 16 to 31: a field of the receiver. */
  lemma PushesInstance(p: Program, elide: bool, m: Machine, k: nat, long: bool, self: Value)
    requires AtWork(p, m) && Reads(p, m, if long then [1, k] else [16 + k]) && (long || k < 16)
    requires Has(m.objects, Self(m).info.arguments, 0) && m.objects[Self(m).info.arguments].fields[0] == self
    requires Has(m.objects, self, k)
    ensures GoesOn(m, Step(p, elide, m), m.bytePointer + if long then 2 else 1,
                   StackOf(p, m) + [m.objects[self].fields[k]], m.objects)
  {
    hide Step, NextEffect, GoesOn, Reads, DoPrimitive, DoSpecial, SendToReceiver, SendBinary, SendUnary, PushBlock,
         PushConstant, MarkArguments;
    var next := m.bytePointer + if long then 2 else 1;
    Found(p, m, 1, k, long);
    Went(p, elide, m, next, StackOf(p, m) + [m.objects[self].fields[k]], m.objects);
  }

  /** 32 to 47: an argument. */
  lemma PushesArgument(p: Program, elide: bool, m: Machine, k: nat, long: bool)
    requires AtWork(p, m) && Reads(p, m, if long then [2, k] else [32 + k]) && (long || k < 16)
    requires Has(m.objects, Self(m).info.arguments, k)
    ensures GoesOn(m, Step(p, elide, m), m.bytePointer + if long then 2 else 1,
                   StackOf(p, m) + [m.objects[Self(m).info.arguments].fields[k]], m.objects)
  {
    hide Step, NextEffect, GoesOn, Reads, DoPrimitive, DoSpecial, SendToReceiver, SendBinary, SendUnary, PushBlock,
         PushConstant, MarkArguments;
    var next := m.bytePointer + if long then 2 else 1;
    Found(p, m, 2, k, long);
    Went(p, elide, m, next, StackOf(p, m) + [m.objects[Self(m).info.arguments].fields[k]], m.objects);
  }

  /** 48 to 63: a temporary. */
  lemma PushesTemporary(p: Program, elide: bool, m: Machine, k: nat, long: bool)
    requires AtWork(p, m) && Reads(p, m, if long then [3, k] else [48 + k]) && (long || k < 16)
    requires Has(m.objects, Self(m).info.temporaries, k)
    ensures GoesOn(m, Step(p, elide, m), m.bytePointer + if long then 2 else 1,
                   StackOf(p, m) + [m.objects[Self(m).info.temporaries].fields[k]], m.objects)
  {
    hide Step, NextEffect, GoesOn, Reads, DoPrimitive, DoSpecial, SendToReceiver, SendBinary, SendUnary, PushBlock,
         PushConstant, MarkArguments;
    var next := m.bytePointer + if long then 2 else 1;
    Found(p, m, 3, k, long);
    Went(p, elide, m, next, StackOf(p, m) + [m.objects[Self(m).info.temporaries].fields[k]], m.objects);
  }

  /** 64 to 79: a literal. */
  lemma PushesLiteral(p: Program, elide: bool, m: Machine, k: nat, long: bool)
    requires AtWork(p, m) && Reads(p, m, if long then [4, k] else [64 + k]) && (long || k < 16)
    requires k < |p.methods[Self(m).info.methodId].literals|
    ensures GoesOn(m, Step(p, elide, m), m.bytePointer + if long then 2 else 1,
                   StackOf(p, m) + [p.methods[Self(m).info.methodId].literals[k]], m.objects)
  {
    hide Step, NextEffect, GoesOn, Reads, DoPrimitive, DoSpecial, SendToReceiver, SendBinary, SendUnary, PushBlock,
         PushConstant, MarkArguments;
    var next := m.bytePointer + if long then 2 else 1;
    Found(p, m, 4, k, long);
    Went(p, elide, m, next, StackOf(p, m) + [p.methods[Self(m).info.methodId].literals[k]], m.objects);
  }

  /** 80 to 89: a SmallInteger from 0 to 9; 90: nil; 91: true; 92: false. */
  lemma PushesConstant(p: Program, elide: bool, m: Machine, k: nat, long: bool, value: Value)
    requires AtWork(p, m) && Reads(p, m, if long then [5, k] else [80 + k]) && k < 13
    requires k < 10 ==> IsInteger(value, k)
    requires k == 10 ==> value == p.nilObject
    requires k == 11 ==> value == p.trueObject
    requires k == 12 ==> value == p.falseObject
    ensures GoesOn(m, Step(p, elide, m), m.bytePointer + if long then 2 else 1, StackOf(p, m) + [value], m.objects)
  {
    hide Step, NextEffect, GoesOn, Reads, DoPrimitive, DoSpecial, SendToReceiver, SendBinary, SendUnary, PushBlock,
         MarkArguments;
    var next := m.bytePointer + if long then 2 else 1;
    Found(p, m, 5, k, long);
    Went(p, elide, m, next, StackOf(p, m) + [value], m.objects);
  }

  /** A word that holds the number n: twice n and 1, in 32 bits. */
  predicate IsInteger(v: Value, n: int) {
    -0x4000_0000 <= n < 0x4000_0000 && v == if n >= 0 then 2 * n + 1 else 0x1_0000_0000 + 2 * n + 1
  }

  /** 96 to 111: the top goes into a field of the receiver, and stays on the stack. */
  lemma AssignsInstance(p: Program, elide: bool, m: Machine, k: nat, long: bool, self: Value, rest: seq<Value>,
                        value: Value)
    requires AtWork(p, m) && Reads(p, m, if long then [6, k] else [96 + k]) && (long || k < 16)
    requires StackOf(p, m) == rest + [value]
    requires Has(m.objects, Self(m).info.arguments, 0) && m.objects[Self(m).info.arguments].fields[0] == self
    requires Has(m.objects, self, k)
    ensures var o := m.objects[self];
      GoesOn(m, Step(p, elide, m), m.bytePointer + if long then 2 else 1, rest + [value],
             m.objects[self := Object(o.klass, o.fields[k := value])])
  {
    hide Step, NextEffect, GoesOn, Reads, DoPrimitive, DoSpecial, SendToReceiver, SendBinary, SendUnary, PushBlock,
         PushConstant, MarkArguments;
    var next := m.bytePointer + if long then 2 else 1;
    Found(p, m, 6, k, long);
    Went(p, elide, m, next, rest + [value],
         m.objects[self := Object(m.objects[self].klass, m.objects[self].fields[k := value])]);
  }

  /** 112 to 127: the top goes into a temporary. */
  lemma AssignsTemporary(p: Program, elide: bool, m: Machine, k: nat, long: bool, rest: seq<Value>, value: Value)
    requires AtWork(p, m) && Reads(p, m, if long then [7, k] else [112 + k]) && (long || k < 16)
    requires StackOf(p, m) == rest + [value]
    requires Has(m.objects, Self(m).info.temporaries, k)
    ensures var at := Self(m).info.temporaries;
      GoesOn(m, Step(p, elide, m), m.bytePointer + if long then 2 else 1, rest + [value],
             m.objects[at := Object(m.objects[at].klass, m.objects[at].fields[k := value])])
  {
    hide Step, NextEffect, GoesOn, Reads, DoPrimitive, DoSpecial, SendToReceiver, SendBinary, SendUnary, PushBlock,
         PushConstant, MarkArguments;
    var next := m.bytePointer + if long then 2 else 1;
    var at := Self(m).info.temporaries;
    Found(p, m, 7, k, long);
    Went(p, elide, m, next, rest + [value],
         m.objects[at := Object(m.objects[at].klass, m.objects[at].fields[k := value])]);
  }

  /** 128 to 143: the topmost elements become an array, in their order. */
  lemma MarksArguments(p: Program, elide: bool, m: Machine, long: bool, rest: seq<Value>, arguments: seq<Value>)
    requires AtWork(p, m) && Reads(p, m, if long then [8, |arguments|] else [128 + |arguments|])
    requires (long || |arguments| < 16)
    requires StackOf(p, m) == rest + arguments
    ensures GoesOn(m, Step(p, elide, m), m.bytePointer + if long then 2 else 1, rest + [p.allocate(m.objects)],
                   m.objects[p.allocate(m.objects) := Object(p.arrayClass, arguments)])
  {
    hide Step, NextEffect, GoesOn, Reads, DoPrimitive, DoSpecial, SendToReceiver, SendBinary, SendUnary, PushBlock,
         PushConstant;
    var next := m.bytePointer + if long then 2 else 1;
    Found(p, m, 8, |arguments|, long);
    assert (rest + arguments)[..|rest|] == rest && (rest + arguments)[|rest|..] == arguments;
    Went(p, elide, m, next, rest + [p.allocate(m.objects)],
         m.objects[p.allocate(m.objects) := Object(p.arrayClass, arguments)]);
  }

  // ---- Sending ----

  /** 144 to 159: the message named by a literal goes to the class of the first argument. */
  lemma SendsMessage(p: Program, elide: bool, m: Machine, k: nat, long: bool, rest: seq<Value>, arguments: Value,
                     klass: nat)
    requires AtWork(p, m) && Reads(p, m, if long then [9, k] else [144 + k]) && (long || k < 16)
    requires m.next !in m.contexts
    requires StackOf(p, m) == rest + [arguments] && k < |p.methods[Self(m).info.methodId].literals|
    requires Has(m.objects, arguments, 0)
    requires HasClass(p, m.contexts, m.objects, m.objects[arguments].fields[0], klass)
    ensures Sends(p, elide, m, Step(p, elide, m), rest, m.bytePointer + if long then 2 else 1,
                  p.methods[Self(m).info.methodId].literals[k], arguments, klass, m.objects)
  {
    hide Step, NextEffect, Reads, DoPrimitive, DoSpecial, SendToReceiver, SendBinary, SendUnary, PushBlock,
         PushConstant, MarkArguments;
    var next := m.bytePointer + if long then 2 else 1;
    Found(p, m, 9, k, long);
    ClassFits(p, m, m.objects, m.objects[arguments].fields[0], klass);
    hide Execute, Calls, HasClass, ClassOf, Sends;
    assert (rest + [arguments])[..|rest|] == rest;
    SendFetched(p, m, Frame(Self(m).info, rest + [arguments], next), k, rest, arguments);
    SentBy(p, elide, m, next, rest, p.methods[Self(m).info.methodId].literals[k], arguments, klass, m.objects);
  }

  lemma SendFetched(p: Program, m: Machine, f: Frame, k: nat, rest: seq<Value>, arguments: Value)
    requires m.Running? && f.info.methodId in p.methods && k < |p.methods[f.info.methodId].literals|
    requires f.stack == rest + [arguments] && Has(m.objects, arguments, 0)
    ensures Execute(p, SiteOf(m), f, Instruction(9, k, 0), m.objects) ==
            Send(p, f.(stack := rest), p.methods[f.info.methodId].literals[k], arguments,
                 ClassOf(p, SiteOf(m), m.objects, m.objects[arguments].fields[0]), m.objects)
  {
    hide Send, ClassOf;
    assert (rest + [arguments])[..|rest|] == rest;
  }

  lemma ClassFits(p: Program, m: Machine, objects: Objects, v: Value, klass: nat)
    requires m.Running? && HasClass(p, m.contexts, objects, v, klass)
    ensures ClassOf(p, SiteOf(m), objects, v) == klass
  {
    assert v in Infos(m.contexts) <==> v in m.contexts;
  }

  lemma SentBy(p: Program, elide: bool, m: Machine, pc: nat, rest: seq<Value>, selector: Value, arguments: Value,
               klass: nat, objects: Objects)
    requires AtWork(p, m) && m.next !in m.contexts && |rest| <= m.stackTop && Has(objects, arguments, 0)
    requires NextEffect(p, m) == Send(p, Frame(Self(m).info, rest, pc), selector, arguments, klass, objects)
    ensures Sends(p, elide, m, Step(p, elide, m), rest, pc, selector, arguments, klass, objects)
  {
    hide NextEffect, Calls, Step;
    var found, bad := p.lookup(selector, klass), p.lookup(p.badMethodSymbol, klass);
    if found != 0 {
      if found in p.methods { Called(p, elide, m, pc, rest, found, arguments, objects); }
    } else if bad in p.methods {
      var address := p.allocate(objects);
      Called(p, elide, m, pc, rest, bad, address,
             objects[address := Object(p.arrayClass, [objects[arguments].fields[0], selector])]);
    }
  }

  /** 251: a message to the class above that of the method, with the arguments on the stack. */
  lemma SendsToSuper(p: Program, elide: bool, m: Machine, k: nat, long: bool, rest: seq<Value>, arguments: Value)
    requires AtWork(p, m) && Reads(p, m, if long then [15, 11, k] else [251, k]) && m.next !in m.contexts
    requires StackOf(p, m) == rest + [arguments] && k < |p.methods[Self(m).info.methodId].literals|
    requires Has(m.objects, arguments, 0)
    ensures var method_ := p.methods[Self(m).info.methodId];
      Sends(p, elide, m, Step(p, elide, m), rest, m.bytePointer + if long then 3 else 2, method_.literals[k], arguments,
            method_.superclass, m.objects)
  {
    hide Step, NextEffect, Sends, Send, Reads, DoPrimitive, SendToReceiver, SendBinary, SendUnary, PushBlock,
         PushConstant, MarkArguments;
    var next := m.bytePointer + if long then 3 else 2;
    FoundOne(p, m, 15, 11, k, long);
    assert (rest + [arguments])[..|rest|] == rest;
    var method_ := p.methods[Self(m).info.methodId];
    SentBy(p, elide, m, next, rest, method_.literals[k], arguments, method_.superclass, m.objects);
  }

  /** 160: whether the top is nil; 161: whether it is not. */
  lemma SendsUnary(p: Program, elide: bool, m: Machine, long: bool, rest: seq<Value>, value: Value)
    requires AtWork(p, m) && StackOf(p, m) == rest + [value]
    ensures var isNil := if long then [10, 0] else [160];
      Reads(p, m, isNil) ==>
        GoesOn(m, Step(p, elide, m), m.bytePointer + |isNil|,
               rest + [if value == p.nilObject then p.trueObject else p.falseObject], m.objects)
    ensures var notNil := if long then [10, 1] else [161];
      Reads(p, m, notNil) ==>
        GoesOn(m, Step(p, elide, m), m.bytePointer + |notNil|,
               rest + [if value == p.nilObject then p.falseObject else p.trueObject], m.objects)
  {
    hide Step, NextEffect, GoesOn, Reads, DoPrimitive, DoSpecial, SendToReceiver, SendBinary, PushBlock,
         PushConstant, MarkArguments;
    var next := m.bytePointer + if long then 2 else 1;
    assert (rest + [value])[..|rest|] == rest;
    if Reads(p, m, if long then [10, 0] else [160]) {
      Found(p, m, 10, 0, long);
      Went(p, elide, m, next, rest + [if value == p.nilObject then p.trueObject else p.falseObject], m.objects);
    }
    if Reads(p, m, if long then [10, 1] else [161]) {
      Found(p, m, 10, 1, long);
      Went(p, elide, m, next, rest + [if value == p.nilObject then p.falseObject else p.trueObject], m.objects);
    }
  }

  /** 176: less; 177: less or equal; 178: the sum, in 31 bits, of two SmallIntegers, the right one on top. */
  lemma ComputesBinary(p: Program, elide: bool, m: Machine, k: nat, long: bool, rest: seq<Value>, left: Value,
                       right: Value, a: int, b: int, value: Value)
    requires AtWork(p, m) && k < 3 && Reads(p, m, if long then [11, k] else [176 + k])
    requires StackOf(p, m) == rest + [left, right]
    requires IsInteger(left, a) && IsInteger(right, b)
    requires k == 0 ==> value == if a < b then p.trueObject else p.falseObject
    requires k == 1 ==> value == if a <= b then p.trueObject else p.falseObject
    requires k == 2 ==> IsInteger(value, Wrapped(a + b))
    ensures GoesOn(m, Step(p, elide, m), m.bytePointer + if long then 2 else 1, rest + [value], m.objects)
  {
    hide Step, NextEffect, GoesOn, Reads, DoPrimitive, DoSpecial, SendToReceiver, SendUnary, PushBlock, PushConstant,
         MarkArguments;
    var next := m.bytePointer + if long then 2 else 1;
    Found(p, m, 11, k, long);
    TwoOnTop(rest, left, right);
    IntegerIs(left, a);
    IntegerIs(right, b);
    if k == 2 { SumIs(a, b, value); }
    hide IntegerOf, NewInteger, IsInteger;
    Went(p, elide, m, next, rest + [value], m.objects);
  }

  /** A sum of two SmallIntegers in the 31 bits of one. */
  function Wrapped(n: int): int {
    if n >= 0x4000_0000 then n - 0x8000_0000 else if n < -0x4000_0000 then n + 0x8000_0000 else n
  }

  lemma TwoOnTop(rest: seq<Value>, left: Value, right: Value)
    ensures (rest + [left, right])[..|rest| + 1] == rest + [left] && (rest + [left])[..|rest|] == rest
  {
  }

  lemma IntegerIs(v: Value, n: int)
    requires IsInteger(v, n)
    ensures IntegerOf(v) == n && v % 2 == 1
  {
  }

  lemma SumIs(a: int, b: int, value: Value)
    requires -0x4000_0000 <= a < 0x4000_0000 && -0x4000_0000 <= b < 0x4000_0000 && IsInteger(value, Wrapped(a + b))
    ensures NewInteger(a + b) == value
  {
  }

  /** 176 to 191 otherwise: the message goes to the class of the left operand, with both as arguments. */
  lemma SendsBinary(p: Program, elide: bool, m: Machine, k: nat, long: bool, rest: seq<Value>, left: Value,
                    right: Value, klass: nat)
    requires AtWork(p, m) && Reads(p, m, if long then [11, k] else [176 + k]) && (long || k < 16)
    requires m.next !in m.contexts
    requires StackOf(p, m) == rest + [left, right] && !(left % 2 == 1 && right % 2 == 1)
    requires k < |p.binaryMessages|
    requires var address := p.allocate(m.objects);
      HasClass(p, m.contexts, m.objects[address := Object(p.arrayClass, [left, right])], left, klass)
    ensures var address := p.allocate(m.objects);
      Sends(p, elide, m, Step(p, elide, m), rest, m.bytePointer + if long then 2 else 1, p.binaryMessages[k], address,
            klass, m.objects[address := Object(p.arrayClass, [left, right])])
  {
    hide Step, NextEffect, Sends, Send, HasClass, ClassOf, Reads, DoPrimitive, DoSpecial, SendUnary, PushBlock,
         PushConstant, MarkArguments;
    var next := m.bytePointer + if long then 2 else 1;
    var address := p.allocate(m.objects);
    var objects := m.objects[address := Object(p.arrayClass, [left, right])];
    Found(p, m, 11, k, long);
    TwoOnTop(rest, left, right);
    ClassFits(p, m, objects, left, klass);
    SentBy(p, elide, m, next, rest, p.binaryMessages[k], address, klass, objects);
  }

  // ---- Blocks ----

  /** 192 to 207: a block for the code behind the instruction, up to the offset in its operand.  It
      shares the arguments and temporaries of the context, and a block inside a block its home. */
  lemma PushesBlock(p: Program, elide: bool, m: Machine, k: nat, low: nat, high: nat, long: bool)
    requires AtWork(p, m) && Reads(p, m, if long then [12, k, low, high] else [192 + k, low, high]) && (long || k < 16)
    requires m.next !in m.contexts && m.current != 0
    ensures var now := Step(p, elide, m); var info := Self(m).info;
      && Holds(now, StackOf(p, m) + [m.next]) && now.current == m.current && now.bytePointer == low + 256 * high
      && now.objects == m.objects && now.next == m.next + 4 && Untouched(m, now, {m.current, m.next})
      && Self(now) == Self(m).(stack := Self(now).stack) && m.next in now.contexts
      && var block := now.contexts[m.next];
        && block.info == Info(info.methodId, info.arguments, info.temporaries,
                              if info.creating != 0 then info.creating else m.current, k,
                              m.bytePointer + if long then 4 else 3)
        && block.stack == seq(p.methods[info.methodId].stackSize, _ => p.nilObject)
  {
    hide NextEffect, Reads, DoPrimitive, DoSpecial, SendToReceiver, SendBinary, SendUnary, PushConstant,
         MarkArguments;
    var next := m.bytePointer + if long then 4 else 3;
    BlockFetched(p, m, k, low, high, long, next);
    var c, stack := Self(m), StackOf(p, m) + [m.next];
    assert Written(p, c.stack, stack)[..|stack|] == stack;
  }

  lemma BlockFetched(p: Program, m: Machine, k: nat, low: nat, high: nat, long: bool, next: nat)
    requires AtWork(p, m) && Reads(p, m, if long then [12, k, low, high] else [192 + k, low, high]) && (long || k < 16)
    requires m.Running? && m.current != 0 && next == m.bytePointer + if long then 4 else 3
    ensures var info := Self(m).info;
      NextEffect(p, m) ==
      Make(Frame(info, StackOf(p, m) + [m.next], low + 256 * high),
           Info(info.methodId, info.arguments, info.temporaries,
                if info.creating != 0 then info.creating else m.current, k, next), m.objects)
  {
    hide NextEffect, Reads, DoPrimitive, DoSpecial, SendToReceiver, SendBinary, SendUnary, PushConstant,
         MarkArguments;
    FoundTwo(p, m, 12, k, low, high, long);
  }

  // ---- Primitives ----

  /** 208 to 223 with another number than 8: what the primitive does decides how it goes on.  One that
      succeeds returns its value to the context before, which keeps it on its stored stack. */
  lemma CallsPrimitive(p: Program, elide: bool, m: Machine, k: nat, number: nat, long: bool)
    requires AtWork(p, m) && Reads(p, m, if long then [13, k, number] else [208 + k, number]) && (long || k < 16)
    requires number != 8
    ensures var now, stack := Step(p, elide, m), StackOf(p, m);
      match p.primitive(number, k, stack, m.objects)
      case Failed(popped, objects) =>
        popped <= |stack| ==>
          GoesOn(m, now, m.bytePointer + if long then 3 else 2, stack[..|stack| - popped] + [p.nilObject], objects)
      case Done(value, objects) => Hands(m, now, Self(m).previous, value, objects, true)
      case Kept(objects) => GoesOn(m, now, m.bytePointer + if long then 3 else 2, stack, objects)
      case Thrown(objects) => now == Errored(objects)
  {
    hide NextEffect, GoesOn, Reads, Hands, Delivered, InvokeBlock, DoSpecial, SendToReceiver, SendBinary, SendUnary,
         PushBlock, PushConstant, MarkArguments, Gone;
    var next, stack := m.bytePointer + if long then 3 else 2, StackOf(p, m);
    FoundOne(p, m, 13, k, number, long);
    match p.primitive(number, k, stack, m.objects)
    case Failed(popped, objects) =>
      if popped <= |stack| { Went(p, elide, m, next, stack[..|stack| - popped] + [p.nilObject], objects); }
    case Done(value, objects) => Handed(p, elide, m, Self(m).previous, value, objects, true);
    case Kept(objects) => Went(p, elide, m, next, stack, objects);
    case Thrown(objects) =>
  }

  /** Primitive 8: the block on top of the stack takes the place of the context that invokes it; the
      k - 1 values below it go into its temporaries. */
  lemma InvokesBlock(p: Program, elide: bool, m: Machine, k: nat, long: bool, rest: seq<Value>, arguments: seq<Value>,
                     block: nat)
    requires AtWork(p, m) && Reads(p, m, if long then [13, k, 8] else [208 + k, 8]) && (long || k < 16)
    requires k == |arguments| + 1 && StackOf(p, m) == rest + arguments + [block]
    requires block in m.contexts && m.contexts[block].info.creating != 0
    requires var info := m.contexts[block].info;
      && info.temporaries in m.objects
      && info.argumentLocation + |arguments| <= |m.objects[info.temporaries].fields|
    ensures var now := Step(p, elide, m); var c := m.contexts[block];
      var o, from := m.objects[c.info.temporaries], c.info.argumentLocation;
      && Holds(now, []) && now.current == block && now.next == m.next && now.bytePointer == c.info.blockBytePointer
      && Untouched(m, now, {block}) && Self(now) == c.(previous := Self(m).previous)
      && now.objects.Keys == m.objects.Keys && (forall a | a in m.objects && a != c.info.temporaries ::
           now.objects[a] == m.objects[a])
      && var o' := now.objects[c.info.temporaries];
        && o'.klass == o.klass && |o'.fields| == |o.fields|
        && forall j | 0 <= j < |o.fields| ::
          o'.fields[j] == if from <= j < from + |arguments| then arguments[j - from] else o.fields[j]
  {
    hide NextEffect, Reads;
    FoundOne(p, m, 13, k, 8, long);
    var info := m.contexts[block].info;
    var fields, from := m.objects[info.temporaries].fields, info.argumentLocation;
    var loaded := fields[..from] + arguments + fields[from + |arguments|..];
    InvokeFetched(p, m, Frame(Self(m).info, rest + arguments + [block], m.bytePointer + if long then 3 else 2), k, rest,
                  arguments, block);
  }

  lemma InvokeFetched(p: Program, m: Machine, f: Frame, k: nat, rest: seq<Value>, arguments: seq<Value>, block: nat)
    requires m.Running? && f.info.methodId in p.methods && f.stack == rest + arguments + [block] && k == |arguments| + 1
    requires block in m.contexts && m.contexts[block].info.creating != 0
    requires var info := m.contexts[block].info;
      && info.temporaries in m.objects
      && info.argumentLocation + |arguments| <= |m.objects[info.temporaries].fields|
    ensures var info := m.contexts[block].info;
      var o, from := m.objects[info.temporaries], info.argumentLocation;
      Execute(p, SiteOf(m), f, Instruction(13, k, 8), m.objects) ==
      Invoke(block, m.objects[info.temporaries :=
        o.(fields := o.fields[..from] + arguments + o.fields[from + |arguments|..])])
  {
    hide DoSpecial, SendToReceiver, SendBinary, SendUnary, PushBlock, PushConstant, MarkArguments;
    assert block in Infos(m.contexts);
    var under := f.stack[..|f.stack| - 1];
    assert under == rest + arguments && under[|under| - |arguments|..] == arguments;
  }

  /** With more values than the temporaries have room for, or with k = 0, the invocation fails: nil is
      left, and k values have gone with the block, one more than it was given. */
  lemma FailsToInvoke(p: Program, elide: bool, m: Machine, k: nat, long: bool, rest: seq<Value>, gone: seq<Value>,
                      block: nat)
    requires AtWork(p, m) && Reads(p, m, if long then [13, k, 8] else [208 + k, 8]) && (long || k < 16)
    requires k == |gone| && StackOf(p, m) == rest + gone + [block]
    requires block in m.contexts && m.contexts[block].info.creating != 0
    requires var info := m.contexts[block].info;
      && info.temporaries in m.objects && info.argumentLocation <= |m.objects[info.temporaries].fields|
      && (k == 0 || info.argumentLocation + k - 1 > |m.objects[info.temporaries].fields|)
    ensures GoesOn(m, Step(p, elide, m), m.bytePointer + if long then 3 else 2, rest + [p.nilObject], m.objects)
  {
    hide NextEffect, GoesOn, Reads, Step, DoSpecial, SendToReceiver, SendBinary, SendUnary, PushBlock, PushConstant,
         MarkArguments;
    FoundOne(p, m, 13, k, 8, long);
    assert block in Infos(m.contexts);
    var under := (rest + gone + [block])[..|rest + gone|];
    assert under == rest + gone && under[..|under| - k] == rest;
    Went(p, elide, m, m.bytePointer + if long then 3 else 2, rest + [p.nilObject], m.objects);
  }

  // ---- Returns, branches and the stack ----

  /** 241: the receiver goes to the context before. */
  lemma ReturnsSelf(p: Program, elide: bool, m: Machine, long: bool)
    requires AtWork(p, m) && Reads(p, m, if long then [15, 1] else [241]) && Has(m.objects, Self(m).info.arguments, 0)
    ensures Hands(m, Step(p, elide, m), Self(m).previous, m.objects[Self(m).info.arguments].fields[0], m.objects, false)
  {
    hide NextEffect, Reads, Hands, Delivered, DoPrimitive, SendToReceiver, SendBinary, SendUnary, PushBlock,
         PushConstant, MarkArguments;
    Found(p, m, 15, 1, long);
    Handed(p, elide, m, Self(m).previous, m.objects[Self(m).info.arguments].fields[0], m.objects, false);
  }

  /** 242: the top goes to the context before. */
  lemma ReturnsTop(p: Program, elide: bool, m: Machine, long: bool, rest: seq<Value>, value: Value)
    requires AtWork(p, m) && Reads(p, m, if long then [15, 2] else [242]) && StackOf(p, m) == rest + [value]
    ensures Hands(m, Step(p, elide, m), Self(m).previous, value, m.objects, false)
  {
    hide NextEffect, Reads, Hands, Delivered, DoPrimitive, SendToReceiver, SendBinary, SendUnary, PushBlock,
         PushConstant, MarkArguments;
    Found(p, m, 15, 2, long);
    Handed(p, elide, m, Self(m).previous, value, m.objects, false);
  }

  /** 243: the top goes to the context before the one that the block was made for. */
  lemma ReturnsFromHome(p: Program, elide: bool, m: Machine, long: bool, rest: seq<Value>, value: Value)
    requires AtWork(p, m) && Reads(p, m, if long then [15, 3] else [243]) && StackOf(p, m) == rest + [value]
    requires Self(m).info.creating != 0 && Self(m).info.creating in m.contexts
    ensures Hands(m, Step(p, elide, m), m.contexts[Self(m).info.creating].previous, value, m.objects, false)
  {
    hide NextEffect, Reads, Hands, Delivered, DoPrimitive, SendToReceiver, SendBinary, SendUnary, PushBlock,
         PushConstant, MarkArguments;
    Found(p, m, 15, 3, long);
    Handed(p, elide, m, m.contexts[Self(m).info.creating].previous, value, m.objects, false);
  }

  /** 244: the top is pushed again. */
  lemma Duplicates(p: Program, elide: bool, m: Machine, long: bool, rest: seq<Value>, value: Value)
    requires AtWork(p, m) && Reads(p, m, if long then [15, 4] else [244]) && StackOf(p, m) == rest + [value]
    ensures GoesOn(m, Step(p, elide, m), m.bytePointer + if long then 2 else 1, rest + [value, value], m.objects)
  {
    hide NextEffect, GoesOn, Reads, Step, DoPrimitive, SendToReceiver, SendBinary, SendUnary, PushBlock, PushConstant,
         MarkArguments, Send;
    Found(p, m, 15, 4, long);
    assert rest + [value] + [value] == rest + [value, value];
    Went(p, elide, m, m.bytePointer + if long then 2 else 1, rest + [value, value], m.objects);
  }

  /** 245: the top is dropped. */
  lemma PopsTop(p: Program, elide: bool, m: Machine, long: bool, rest: seq<Value>, value: Value)
    requires AtWork(p, m) && Reads(p, m, if long then [15, 5] else [245]) && StackOf(p, m) == rest + [value]
    ensures GoesOn(m, Step(p, elide, m), m.bytePointer + if long then 2 else 1, rest, m.objects)
  {
    hide NextEffect, GoesOn, Reads, Step, DoPrimitive, SendToReceiver, SendBinary, SendUnary, PushBlock, PushConstant,
         MarkArguments, Send;
    Found(p, m, 15, 5, long);
    assert (rest + [value])[..|rest|] == rest;
    Went(p, elide, m, m.bytePointer + if long then 2 else 1, rest, m.objects);
  }

  /** 246: the code goes on at the offset. */
  lemma Branches(p: Program, elide: bool, m: Machine, low: nat, high: nat, long: bool)
    requires AtWork(p, m) && Reads(p, m, if long then [15, 6, low, high] else [246, low, high])
    ensures GoesOn(m, Step(p, elide, m), low + 256 * high, StackOf(p, m), m.objects)
  {
    hide NextEffect, GoesOn, Reads, Step, DoPrimitive, SendToReceiver, SendBinary, SendUnary, PushBlock, PushConstant,
         MarkArguments, Send;
    FoundTwo(p, m, 15, 6, low, high, long);
    Went(p, elide, m, low + 256 * high, StackOf(p, m), m.objects);
  }

  /** 247: the top is taken off, and if it is true the code goes on at the offset. */
  lemma BranchesIfTrue(p: Program, elide: bool, m: Machine, low: nat, high: nat, long: bool, rest: seq<Value>,
                       value: Value)
    requires AtWork(p, m) && Reads(p, m, if long then [15, 7, low, high] else [247, low, high])
    requires StackOf(p, m) == rest + [value]
    ensures GoesOn(m, Step(p, elide, m),
                   if value == p.trueObject then low + 256 * high else m.bytePointer + if long then 4 else 3, rest,
                   m.objects)
  {
    hide NextEffect, GoesOn, Reads, Step, DoPrimitive, SendToReceiver, SendBinary, SendUnary, PushBlock, PushConstant,
         MarkArguments, Send;
    FoundTwo(p, m, 15, 7, low, high, long);
    assert (rest + [value])[..|rest|] == rest;
    Went(p, elide, m, if value == p.trueObject then low + 256 * high else m.bytePointer + if long then 4 else 3, rest,
         m.objects);
  }

  /** 248: the same if it is false. */
  lemma BranchesIfFalse(p: Program, elide: bool, m: Machine, low: nat, high: nat, long: bool, rest: seq<Value>,
                        value: Value)
    requires AtWork(p, m) && Reads(p, m, if long then [15, 8, low, high] else [248, low, high])
    requires StackOf(p, m) == rest + [value]
    ensures GoesOn(m, Step(p, elide, m),
                   if value == p.falseObject then low + 256 * high else m.bytePointer + if long then 4 else 3, rest,
                   m.objects)
  {
    hide NextEffect, GoesOn, Reads, Step, DoPrimitive, SendToReceiver, SendBinary, SendUnary, PushBlock, PushConstant,
         MarkArguments, Send;
    FoundTwo(p, m, 15, 8, low, high, long);
    assert (rest + [value])[..|rest|] == rest;
    Went(p, elide, m, if value == p.falseObject then low + 256 * high else m.bytePointer + if long then 4 else 3, rest,
         m.objects);
  }

  // ---- The rest of the bytes ----

  /** 240, 249, 250 and from 252 on: passed over. */
  lemma PassesOver(p: Program, elide: bool, m: Machine, k: nat, long: bool)
    requires AtWork(p, m) && Reads(p, m, if long then [15, k] else [240 + k]) && (long || k < 16)
    requires k == 0 || k == 9 || k == 10 || k >= 12
    ensures GoesOn(m, Step(p, elide, m), m.bytePointer + if long then 2 else 1, StackOf(p, m), m.objects)
  {
    hide NextEffect, GoesOn, Reads, Step, DoPrimitive, SendToReceiver, SendBinary, SendUnary, PushBlock, PushConstant,
         MarkArguments, Send;
    Found(p, m, 15, k, long);
    Went(p, elide, m, m.bytePointer + if long then 2 else 1, StackOf(p, m), m.objects);
  }

  /** 93 to 95, 162 to 175 and 224 to 239, and two prefixes in a row: nothing is defined there. */
  lemma Undecided(p: Program, elide: bool, m: Machine, opcode: nat, k: nat, long: bool)
    requires AtWork(p, m)
    requires Reads(p, m, if long then [opcode, k] else [16 * opcode + k]) && (long || (k < 16 && opcode > 0))
    requires opcode == 14 || (opcode == 5 && k > 12) || (opcode == 10 && k > 1) || opcode == 0
    ensures Step(p, elide, m) == Undefined
  {
    hide NextEffect, Reads, DoPrimitive, SendToReceiver, SendBinary, PushBlock, MarkArguments, DoSpecial;
    if opcode == 0 { Fetched(p, m, Instruction(0, k, 0), m.bytePointer + 2) by { DoublePrefix(p, m, k); } }
    else { Found(p, m, opcode, k, long); }
  }

  lemma DoublePrefix(p: Program, m: Machine, k: nat)
    requires AtWork(p, m) && Reads(p, m, [0, k])
    ensures Spelled(CodeOf(p, m), m.bytePointer, Instruction(0, k, 0), m.bytePointer + 2)
  {
    assert CodeOf(p, m)[m.bytePointer] == [0, k][0] && CodeOf(p, m)[m.bytePointer + 1] == [0, k][1];
  }

  /** Whatever the code and the stack, there is a machine at work there. */
  lemma SomeoneAtWork(code: Code, stack: seq<Value>) returns (p: Program, m: Machine)
    ensures AtWork(p, m) && CodeOf(p, m) == code && StackOf(p, m) == stack && m.bytePointer == 0
    ensures m.next !in m.contexts && Self(m).info.creating == 0 && Has(m.objects, Self(m).info.arguments, 0)
  {
    p := Program(map[1 := Method(code, [], 0, 0, 0)], (selector, klass) => 0, (k, n, s, objects) => Kept(objects),
                 objects => 0, 20, 24, 28, 32, 36, 48, 52, 56, []);
    m := Running(map[4 := Context(Info(1, 40, 44, 0, 0, 0), stack, 0, 0, 0)], 8, 4, |stack|, 0,
                 map[40 := Object(48, [1])]);
  }
}
