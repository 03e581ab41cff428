/**
 * The execution of contexts, as steps on values: the contexts in memory with the pointers
 * held outside of them, and the objects.  A step either links the calling context below the
 * new one, or elides it when its next instruction returns the result of the call.
 */
module Contexts {
  import opened Instructions

  const PUSH_INSTANCE := 1
  const PUSH_ARGUMENT := 2
  const PUSH_TEMPORARY := 3
  const PUSH_LITERAL := 4
  const ASSIGN_INSTANCE := 6
  const ASSIGN_TEMPORARY := 7
  const MARK_ARGUMENTS := 8
  const SEND_MESSAGE := 9
  const SEND_UNARY := 10
  const SEND_BINARY := 11

  const DUPLICATE := 4
  const POP_TOP := 5

  /** The primitive that invokes a block. */
  const BLOCK_INVOKE := 8

  /** A SmallInteger when odd, otherwise the address of an object or of a context. */
  type Value = nat

  datatype Object = Object(klass: nat, fields: seq<Value>)
  type Objects = map<nat, Object>

  datatype Method = Method(code: Code, literals: seq<Value>, temporarySize: nat, stackSize: nat, superclass: nat)

  /** What a method's primitive does: it fails after taking operands off the stack, succeeds,
      leaves the context alone, or ends the process with an error. */
  datatype Outcome =
    | Failed(popped: nat, objects: Objects)
    | Done(value: Value, objects: Objects)
    | Kept(objects: Objects)
    | Thrown(objects: Objects)

  /**
   * A program and the machine's services: method lookup, the primitives other than block
   * invocation, and the address of the next object.
   */
  datatype Program = Program(
    methods: map<nat, Method>,
    lookup: (Value, nat) -> nat,
    primitive: (nat, nat, seq<Value>, Objects) -> Outcome,
    allocate: Objects -> nat,
    nilObject: Value, trueObject: Value, falseObject: Value,
    badMethodSymbol: Value, smallIntClass: nat, arrayClass: nat, contextClass: nat, blockClass: nat,
    binaryMessages: seq<Value>)

  /** No context: what the previous context of the first one is, and the creator of a method's context. */
  const NIL_CONTEXT := 0

  /** What never changes about a context.  A block's context remembers the method's context it
      was made for, where its arguments go among the temporaries and where its code begins. */
  datatype Info = Info(
    methodId: nat, arguments: nat, temporaries: nat, creating: nat, argumentLocation: nat, blockBytePointer: nat)
  {
    predicate IsBlock() {
      creating != NIL_CONTEXT
    }
  }

  /** A context in memory.  Its stack is an array of which `stackTop` elements were in use
      when the pointers were last stored. */
  datatype Context = Context(info: Info, stack: seq<Value>, stackTop: nat, bytePointer: nat, previous: nat)

  type Store = map<nat, Context>

  /** A machine at work with the pointers of its current context, finished with a result or an
      error, or faced with code the source does not define. */
  datatype Machine =
    | Running(contexts: Store, next: nat, current: nat, stackTop: nat, bytePointer: nat, objects: Objects)
    | Returned(value: Value, objects: Objects)
    | Errored(objects: Objects)
    | Undefined

  /** The part of a stack array that is in use. */
  function Used(stack: seq<Value>, top: nat): seq<Value> {
    if top <= |stack| then stack[..top] else stack
  }

  /** The array after the used part has become `used`; a full one grows by seven elements. */
  function Written(p: Program, stack: seq<Value>, used: seq<Value>): seq<Value> {
    if |used| <= |stack| then used + stack[|used|..] else used + seq(6, _ => p.nilObject)
  }

  function Infos(contexts: Store): map<nat, Info> {
    map id | id in contexts :: contexts[id].info
  }

  // ---- One instruction ----

  /** The context at work as its instructions see it. */
  datatype Frame = Frame(info: Info, stack: seq<Value>, bytePointer: nat)

  /** What an instruction asks of the machine. */
  datatype Effect =
    | Go(frame: Frame, objects: Objects)
    | Call(caller: Frame, methodId: nat, arguments: nat, objects: Objects)
    | Make(frame: Frame, made: Info, objects: Objects)
    | Invoke(block: nat, objects: Objects)
    | Give(value: Value, objects: Objects, saves: bool)
    | GiveHome(value: Value, objects: Objects)
    | Stop(objects: Objects)
    | Fault

  /** Where an instruction is executed: the contexts there are, the current one and the address of the next. */
  datatype Site = Site(infos: map<nat, Info>, current: nat, next: nat)

  predicate HasField(objects: Objects, address: nat, k: nat) {
    address in objects && k < |objects[address].fields|
  }

  function Pushed(f: Frame, v: Value): Frame {
    f.(stack := f.stack + [v])
  }

  function Top(f: Frame): Value
    requires f.stack != []
  {
    f.stack[|f.stack| - 1]
  }

  function Popped(f: Frame): Frame
    requires f.stack != []
  {
    f.(stack := f.stack[..|f.stack| - 1])
  }

  function ClassOf(p: Program, s: Site, objects: Objects, v: Value): nat {
    if v % 2 == 1 then p.smallIntClass
    else if v in s.infos then (if s.infos[v].IsBlock() then p.blockClass else p.contextClass)
    else if v in objects then objects[v].klass
    else 0
  }

  /** Sending a message: to the method found, or to that of #doesNotUnderstand: with the receiver and the selector. */
  function Send(p: Program, f: Frame, selector: Value, arguments: nat, klass: nat, objects: Objects): Effect {
    var m := p.lookup(selector, klass);
    if m != 0 then
      if m in p.methods then Call(f, m, arguments, objects) else Fault
    else
      var bad := p.lookup(p.badMethodSymbol, klass);
      if bad in p.methods && HasField(objects, arguments, 0) then
        var address := p.allocate(objects);
        Call(f, bad, address, objects[address := Object(p.arrayClass, [objects[arguments].fields[0], selector])])
      else Fault
  }

  /** Sending to the class of the first argument. */
  function SendToReceiver(p: Program, s: Site, f: Frame, selector: Value, arguments: nat, objects: Objects): Effect {
    if HasField(objects, arguments, 0) then
      Send(p, f, selector, arguments, ClassOf(p, s, objects, objects[arguments].fields[0]), objects)
    else Fault
  }

  function PushConstant(p: Program, f: Frame, k: nat, objects: Objects): Effect {
    if k < 10 then Go(Pushed(f, 2 * k + 1), objects)
    else if k == 10 then Go(Pushed(f, p.nilObject), objects)
    else if k == 11 then Go(Pushed(f, p.trueObject), objects)
    else if k == 12 then Go(Pushed(f, p.falseObject), objects)
    else Fault
  }

  /** A block object for the code behind the instruction; a block inside a block shares its creator. */
  function PushBlock(s: Site, f: Frame, i: Instruction, objects: Objects): Effect {
    var creating := if f.info.IsBlock() then f.info.creating else s.current;
    if creating == NIL_CONTEXT then Fault
    else
      Make(Pushed(f, s.next).(bytePointer := i.extra),
           Info(f.info.methodId, f.info.arguments, f.info.temporaries, creating, i.argument, f.bytePointer),
           objects)
  }

  function SendUnary(p: Program, f: Frame, k: nat, objects: Objects): Effect {
    if f.stack == [] || k > 1 then Fault
    else
      var isNil := Top(f) == p.nilObject;
      Go(Pushed(Popped(f), if isNil == (k == 0) then p.trueObject else p.falseObject), objects)
  }

  /** The value of a SmallInteger: the upper 31 bits of its word as a signed number. */
  function IntegerOf(v: Value): int {
    var n := v / 2 % 0x8000_0000;
    if n >= 0x4000_0000 then n - 0x8000_0000 else n
  }

  /** The SmallInteger of a number; the word holds 32 bits. */
  function NewInteger(n: int): Value {
    (2 * n + 1) % 0x1_0000_0000
  }

  /** The built-in binary operations: comparisons and the sum. */
  function Computed(p: Program, k: nat, left: int, right: int): Value {
    if k == 0 then (if left < right then p.trueObject else p.falseObject)
    else if k == 1 then (if left <= right then p.trueObject else p.falseObject)
    else NewInteger(left + right)
  }

  function SendBinary(p: Program, s: Site, f: Frame, k: nat, objects: Objects): Effect {
    if |f.stack| < 2 then Fault
    else
      var right, left := Top(f), Top(Popped(f));
      var rest := Popped(Popped(f));
      if left % 2 == 1 && right % 2 == 1 then
        if k < 3 then Go(Pushed(rest, Computed(p, k, IntegerOf(left), IntegerOf(right))), objects) else Fault
      else if k < |p.binaryMessages| then
        var address := p.allocate(objects);
        SendToReceiver(p, s, rest, p.binaryMessages[k], address,
                       objects[address := Object(p.arrayClass, [left, right])])
      else Fault
  }

  function MarkArguments(p: Program, f: Frame, k: nat, objects: Objects): Effect {
    if |f.stack| < k then Fault
    else
      var address := p.allocate(objects);
      var keep := |f.stack| - k;
      Go(f.(stack := f.stack[..keep] + [address]), objects[address := Object(p.arrayClass, f.stack[keep..])])
  }

  /** Invoking the block on top of the stack with `arguments` - 1 arguments below it.  If the
      block's temporaries have no room for them the primitive fails, and takes one element more
      off the stack than it was given. */
  function InvokeBlock(p: Program, s: Site, f: Frame, arguments: nat, objects: Objects): Effect {
    if f.stack == [] || Top(f) !in s.infos || !s.infos[Top(f)].IsBlock() then Fault
    else
      var block, rest := Top(f), f.stack[..|f.stack| - 1];
      var info := s.infos[block];
      if info.temporaries !in objects || info.argumentLocation > |objects[info.temporaries].fields| then Fault
      else
        var temporaries := objects[info.temporaries].fields;
        if arguments == 0 then Go(f.(stack := rest + [p.nilObject]), objects)
        else
          var count := arguments - 1;
          if count > |temporaries| - info.argumentLocation then
            if |rest| < count + 1 then Fault else Go(f.(stack := rest[..|rest| - (count + 1)] + [p.nilObject]), objects)
          else if |rest| < count then Fault
          else
            var from := info.argumentLocation;
            var loaded := temporaries[..from] + rest[|rest| - count..] + temporaries[from + count..];
            Invoke(block, objects[info.temporaries := objects[info.temporaries].(fields := loaded)])
  }

  function DoPrimitive(p: Program, s: Site, f: Frame, i: Instruction, objects: Objects): Effect {
    if i.extra == BLOCK_INVOKE then InvokeBlock(p, s, f, i.argument, objects)
    else
      match p.primitive(i.extra, i.argument, f.stack, objects)
      case Failed(popped, now) =>
        if popped <= |f.stack| then Go(f.(stack := f.stack[..|f.stack| - popped] + [p.nilObject]), now) else Fault
      case Done(value, now) => Give(value, now, true)
      case Kept(now) => Go(f, now)
      case Thrown(now) => Stop(now)
  }

  function DoSpecial(p: Program, f: Frame, i: Instruction, objects: Objects): Effect
    requires f.info.methodId in p.methods
  {
    var m := p.methods[f.info.methodId];
    if i.argument == SELF_RETURN then
      if HasField(objects, f.info.arguments, 0) then Give(objects[f.info.arguments].fields[0], objects, false)
      else Fault
    else if i.argument == STACK_RETURN then
      if f.stack != [] then Give(Top(f), objects, false) else Fault
    else if i.argument == BLOCK_RETURN then
      if f.stack != [] && f.info.IsBlock() then GiveHome(Top(f), objects) else Fault
    else if i.argument == DUPLICATE then
      if f.stack != [] then Go(Pushed(f, Top(f)), objects) else Fault
    else if i.argument == POP_TOP then
      if f.stack != [] then Go(Popped(f), objects) else Fault
    else if i.argument == BRANCH then Go(f.(bytePointer := i.extra), objects)
    else if i.argument == BRANCH_IF_TRUE || i.argument == BRANCH_IF_FALSE then
      if f.stack == [] then Fault
      else
        var wanted := if i.argument == BRANCH_IF_TRUE then p.trueObject else p.falseObject;
        Go(if Top(f) == wanted then Popped(f).(bytePointer := i.extra) else Popped(f), objects)
    else if i.argument == SEND_TO_SUPER then
      if f.stack != [] && i.extra < |m.literals| then
        Send(p, Popped(f), m.literals[i.extra], Top(f), m.superclass, objects)
      else Fault
    else Go(f, objects)
  }

  /** What the instruction does; the byte pointer of the context is past it already. */
  function Execute(p: Program, s: Site, f: Frame, i: Instruction, objects: Objects): Effect
    requires f.info.methodId in p.methods
  {
    var m, k := p.methods[f.info.methodId], i.argument;
    if i.opcode == PUSH_INSTANCE then
      if HasField(objects, f.info.arguments, 0) && HasField(objects, objects[f.info.arguments].fields[0], k) then
        Go(Pushed(f, objects[objects[f.info.arguments].fields[0]].fields[k]), objects)
      else Fault
    else if i.opcode == PUSH_ARGUMENT then
      if HasField(objects, f.info.arguments, k) then Go(Pushed(f, objects[f.info.arguments].fields[k]), objects)
      else Fault
    else if i.opcode == PUSH_TEMPORARY then
      if HasField(objects, f.info.temporaries, k) then Go(Pushed(f, objects[f.info.temporaries].fields[k]), objects)
      else Fault
    else if i.opcode == PUSH_LITERAL then
      if k < |m.literals| then Go(Pushed(f, m.literals[k]), objects) else Fault
    else if i.opcode == PUSH_CONSTANT then PushConstant(p, f, k, objects)
    else if i.opcode == PUSH_BLOCK then PushBlock(s, f, i, objects)
    else if i.opcode == ASSIGN_TEMPORARY then
      if f.stack != [] && HasField(objects, f.info.temporaries, k) then
        Go(f, objects[f.info.temporaries := Assigned(objects[f.info.temporaries], k, Top(f))])
      else Fault
    else if i.opcode == ASSIGN_INSTANCE then
      if f.stack != [] && HasField(objects, f.info.arguments, 0)
         && HasField(objects, objects[f.info.arguments].fields[0], k) then
        var self := objects[f.info.arguments].fields[0];
        Go(f, objects[self := Assigned(objects[self], k, Top(f))])
      else Fault
    else if i.opcode == MARK_ARGUMENTS then MarkArguments(p, f, k, objects)
    else if i.opcode == SEND_MESSAGE then
      if f.stack != [] && k < |m.literals| then SendToReceiver(p, s, Popped(f), m.literals[k], Top(f), objects)
      else Fault
    else if i.opcode == SEND_UNARY then SendUnary(p, f, k, objects)
    else if i.opcode == SEND_BINARY then SendBinary(p, s, f, k, objects)
    else if i.opcode == DO_PRIMITIVE then DoPrimitive(p, s, f, i, objects)
    else if i.opcode == DO_SPECIAL then DoSpecial(p, f, i, objects)
    else Fault
  }

  function Assigned(o: Object, k: nat, value: Value): Object
    requires k < |o.fields|
  {
    o.(fields := o.fields[k := value])
  }

  // ---- One step of the machine ----

  /** The bytes the source compares the next one with: doSpecial with stackReturn and with blockReturn. */
  const STACK_RETURN_BYTE := 242
  const BLOCK_RETURN_BYTE := 243

  predicate ByteAt(p: Program, info: Info, pc: nat, byte: nat) {
    && info.methodId in p.methods && pc < |p.methods[info.methodId].code|
    && p.methods[info.methodId].code[pc] == byte
  }

  /** The context would next return what a call gives it, to the context before it. */
  predicate ReturnsNext(p: Program, info: Info, pc: nat) {
    ByteAt(p, info, pc, STACK_RETURN_BYTE)
  }

  /** The block would next return what a call gives it, from the method it was made for. */
  predicate LeavesNext(p: Program, info: Info, pc: nat) {
    info.IsBlock() && ByteAt(p, info, pc, BLOCK_RETURN_BYTE)
  }

  /** The context before another one. */
  function Before(contexts: Store, id: nat): nat {
    if id in contexts then contexts[id].previous else NIL_CONTEXT
  }

  /** Which context a called method returns to. */
  function Linked(p: Program, elide: bool, contexts: Store, id: nat, info: Info, pc: nat): nat {
    if elide && ReturnsNext(p, info, pc) then Before(contexts, id)
    else if elide && LeavesNext(p, info, pc) then Before(contexts, info.creating)
    else id
  }

  /** The current context goes on. */
  function Gone(p: Program, m: Machine, frame: Frame, objects: Objects): Machine
    requires m.Running? && m.current in m.contexts
  {
    var c := m.contexts[m.current];
    m.(contexts := m.contexts[m.current := c.(stack := Written(p, c.stack, frame.stack))],
       stackTop := |frame.stack|, bytePointer := frame.bytePointer, objects := objects)
  }

  /** The pointers of the current context are stored in it. */
  function Suspended(m: Machine): Machine
    requires m.Running? && m.current in m.contexts
  {
    var c := m.contexts[m.current];
    m.(contexts := m.contexts[m.current := c.(stackTop := m.stackTop, bytePointer := m.bytePointer)])
  }

  /** A method is entered; its temporaries are an array, which blocks inside it share. */
  function Entered(p: Program, m: Machine, methodId: nat, arguments: nat, previous: nat): Machine
    requires m.Running? && methodId in p.methods
  {
    var temporaries := p.allocate(m.objects);
    var nils := seq(p.methods[methodId].temporarySize, _ => p.nilObject);
    var info := Info(methodId, arguments, temporaries, NIL_CONTEXT, 0, 0);
    Running(m.contexts[m.next := Context(info, seq(p.methods[methodId].stackSize, _ => p.nilObject), 0, 0, previous)],
            m.next + 4, m.next, 0, 0, m.objects[temporaries := Object(p.arrayClass, nils)])
  }

  /** A value goes to a suspended context, or ends the process. */
  function Delivered(p: Program, m: Machine, target: nat, value: Value, objects: Objects, saves: bool): Machine
    requires m.Running?
  {
    if target == NIL_CONTEXT then Returned(value, objects)
    else if target !in m.contexts then Undefined
    else
      var c := m.contexts[target];
      var used := Used(c.stack, c.stackTop) + [value];
      var resumed := c.(stack := Written(p, c.stack, used), stackTop := if saves then |used| else c.stackTop);
      Running(m.contexts[target := resumed], m.next, target, |used|, c.bytePointer, objects)
  }

  /** What comes of an effect; `elide` says whether a caller that returns next is left out. */
  function Applied(p: Program, elide: bool, m: Machine, effect: Effect): Machine
    requires m.Running? && m.current in m.contexts
  {
    match effect
    case Go(frame, objects) => Gone(p, m, frame, objects)
    case Call(caller, methodId, arguments, objects) =>
      if methodId !in p.methods then Undefined
      else
        var s := Suspended(Gone(p, m, caller, objects));
        Entered(p, s, methodId, arguments, Linked(p, elide, s.contexts, m.current, caller.info, caller.bytePointer))
    case Make(frame, made, objects) =>
      var nils := seq(if made.methodId in p.methods then p.methods[made.methodId].stackSize else 0, _ => p.nilObject);
      var now := Gone(p, m, frame, objects);
      now.(contexts := now.contexts[m.next := Context(made, nils, 0, 0, NIL_CONTEXT)], next := m.next + 4)
    case Invoke(block, objects) =>
      if block !in m.contexts then Undefined
      else
        Running(m.contexts[block := m.contexts[block].(previous := Before(m.contexts, m.current))],
                m.next, block, 0, m.contexts[block].info.blockBytePointer, objects)
    case Give(value, objects, saves) => Delivered(p, m, Before(m.contexts, m.current), value, objects, saves)
    case GiveHome(value, objects) =>
      Delivered(p, m, Before(m.contexts, m.contexts[m.current].info.creating), value, objects, false)
    case Stop(objects) => Errored(objects)
    case Fault => Undefined
  }

  function SiteOf(m: Machine): Site
    requires m.Running?
  {
    Site(Infos(m.contexts), m.current, m.next)
  }

  function TopFrame(m: Machine): Frame
    requires m.Running? && m.current in m.contexts
  {
    var c := m.contexts[m.current];
    Frame(c.info, Used(c.stack, m.stackTop), m.bytePointer)
  }

  /** What the next instruction asks for. */
  function NextEffect(p: Program, m: Machine): Effect
    requires m.Running? && m.current in m.contexts
  {
    var f := TopFrame(m);
    if f.info.methodId !in p.methods || !Complete(p.methods[f.info.methodId].code, f.bytePointer) then Fault
    else
      var code := p.methods[f.info.methodId].code;
      Execute(p, SiteOf(m), f.(bytePointer := NextOf(code, f.bytePointer)), InstructionAt(code, f.bytePointer),
              m.objects)
  }

  /** One instruction. */
  function Step(p: Program, elide: bool, m: Machine): Machine {
    if !m.Running? then m
    else if m.current !in m.contexts then Undefined
    else Applied(p, elide, m, NextEffect(p, m))
  }

  function Steps(p: Program, elide: bool, m: Machine, n: nat): Machine
    decreases n
  {
    if n == 0 then m else Steps(p, elide, Step(p, elide, m), n - 1)
  }

  lemma {:induction false} StepsSplit(p: Program, elide: bool, m: Machine, a: nat, b: nat)
    ensures Steps(p, elide, m, a + b) == Steps(p, elide, Steps(p, elide, m, a), b)
    decreases a
  {
    if a > 0 { StepsSplit(p, elide, Step(p, elide, m), a - 1, b); }
  }

  /** A machine that stopped stays as it is. */
  lemma {:induction false} Stays(p: Program, elide: bool, m: Machine, n: nat)
    requires !m.Running?
    ensures Steps(p, elide, m, n) == m
    decreases n
  {
    if n > 0 { Stays(p, elide, m, n - 1); }
  }
}
