/** The interpreter's execution context: the contexts in memory and the cached pointers, updated in place. */
module Interpreter {
  import opened Instructions
  import opened Contexts
  import opened Elision

  /** Writing back what is there changes nothing, and the outside pointers are overwritten anyway. */
  lemma GoneSelf(p: Program, m: Machine)
    requires m.Running? && Sound(m)
    ensures Gone(p, m, TopFrame(m), m.objects) == m
  {
    var c := m.contexts[m.current];
    assert c.stack[..m.stackTop] + c.stack[m.stackTop..] == c.stack;
    assert c.(stack := Written(p, c.stack, Used(c.stack, m.stackTop))) == c;
  }

  /** An effect does not depend on where the outside pointers and the objects were before. */
  lemma AppliedAnew(p: Program, m: Machine, stackTop: nat, objects: Objects, effect: Effect)
    requires m.Running? && m.current in m.contexts
    ensures Applied(p, true, m.(stackTop := stackTop, objects := objects), effect) == Applied(p, true, m, effect)
  {
    hide Written, Used, Linked;
  }

  lemma SoundAnew(m: Machine, stackTop: nat, objects: Objects)
    requires m.Running? && Sound(m) && stackTop <= m.stackTop
    ensures Sound(m.(stackTop := stackTop, objects := objects))
  {
  }

  lemma GoneObjects(p: Program, m: Machine, f: Frame, o: Objects, o': Objects)
    requires m.Running? && m.current in m.contexts
    ensures Gone(p, m, f, o).Running? && Gone(p, m, f, o') == Gone(p, m, f, o).(stackTop := |f.stack|, objects := o')
  {
  }

  /** The fields when the arguments from `index` on have been loaded. */
  function Loaded(fields: seq<Value>, stack: seq<Value>, location: nat, count: nat, index: nat): seq<Value>
    requires index <= count <= |stack| && location + count <= |fields|
  {
    fields[..location + index] + stack[|stack| - (count - index)..] + fields[location + count..]
  }

  lemma LoadedNext(fields: seq<Value>, stack: seq<Value>, location: nat, count: nat, index: nat)
    requires index < count <= |stack| && location + count <= |fields|
    ensures |Loaded(fields, stack, location, count, index + 1)| == |fields|
    ensures Loaded(fields, stack, location, count, index + 1)[location + index := stack[|stack| - (count - index)]] ==
            Loaded(fields, stack, location, count, index)
  {
  }

  /** What invoking a block comes to. */
  lemma InvokeCases(p: Program, s: Site, f: Frame, arguments: nat, objects: Objects)
    requires !InvokeBlock(p, s, f, arguments, objects).Fault?
    ensures f.stack != [] && Top(f) in s.infos && s.infos[Top(f)].temporaries in objects
    ensures var effect, info, rest := InvokeBlock(p, s, f, arguments, objects), s.infos[Top(f)], Popped(f).stack;
      var fields := objects[info.temporaries].fields;
      && info.argumentLocation <= |fields|
      && if arguments == 0 then effect == Go(Pushed(Popped(f), p.nilObject), objects)
         else if arguments - 1 > |fields| - info.argumentLocation then
           arguments <= |rest| && effect == Go(f.(stack := rest[..|rest| - arguments] + [p.nilObject]), objects)
         else
           arguments - 1 <= |rest| && effect == Invoke(Top(f), objects[info.temporaries := objects[info.temporaries].(
             fields := Loaded(fields, rest, info.argumentLocation, arguments - 1, 0))])
  {
  }

  class ExecutionContext {
    const program: Program
    var contexts: Store
    var nextContext: nat
    var objects: Objects
    var currentContext: nat
    var bytePointer: nat
    var stackTop: nat
    var returnedValue: Value
    var failed: bool

    ghost function State(): Machine
      reads this
    {
      if failed then Errored(objects)
      else if currentContext == NIL_CONTEXT then Returned(returnedValue, objects)
      else Running(contexts, nextContext, currentContext, stackTop, bytePointer, objects)
    }

    ghost predicate Valid()
      reads this
    {
      Sound(State())
    }

    ghost predicate Active()
      reads this
    {
      Valid() && State().Running?
    }

    /** The context at work, with the pointers held outside of it. */
    ghost function Current(): Frame
      reads this
      requires Active()
    {
      TopFrame(State())
    }

    /** A process at work: the contexts it has, and the one it goes on with. */
    constructor (program: Program, contexts: Store, nextContext: nat, current: nat, objects: Objects)
      requires SoundStore(contexts, nextContext) && current in contexts
      ensures Valid() && this.program == program
      ensures var c := contexts[current];
              State() == Running(contexts, nextContext, current, c.stackTop, c.bytePointer, objects)
    {
      this.program, this.contexts, this.nextContext, this.objects := program, contexts, nextContext, objects;
      currentContext, failed, returnedValue := current, false, program.nilObject;
      bytePointer, stackTop := 0, 0;
      new;
      LoadPointers();
    }

    // ---- The stack and the pointers ----

    method LoadPointers()
      requires currentContext in contexts
      modifies `bytePointer, `stackTop
      ensures bytePointer == contexts[currentContext].bytePointer && stackTop == contexts[currentContext].stackTop
    {
      bytePointer := contexts[currentContext].bytePointer;
      stackTop := contexts[currentContext].stackTop;
    }

    method StorePointers()
      requires Active()
      modifies `contexts
      ensures Active() && State() == Suspended(old(State()))
    {
      SuspendedSound(State());
      contexts :=
        contexts[currentContext := contexts[currentContext].(bytePointer := bytePointer, stackTop := stackTop)];
    }

    /** A full stack grows by seven elements. */
    method StackPush(value: Value)
      requires Active()
      modifies `contexts, `stackTop
      ensures Active() && State() == Gone(program, old(State()), Pushed(old(Current()), value), objects)
    {
      GoneSound(program, State(), Pushed(Current(), value), objects);
      var c := contexts[currentContext];
      ghost var used := Used(c.stack, stackTop) + [value];
      if stackTop >= |c.stack| {
        contexts := contexts[currentContext := c.(stack := c.stack + seq(7, _ => program.nilObject))];
      }
      c := contexts[currentContext];
      contexts := contexts[currentContext := c.(stack := c.stack[stackTop := value])];
      stackTop := stackTop + 1;
      assert contexts[currentContext].stack == Written(program, old(contexts)[currentContext].stack, used);
    }

    method StackPop() returns (value: Value)
      requires Active() && stackTop > 0
      modifies `stackTop
      ensures Active() && State() == old(State()).(stackTop := old(stackTop) - 1)
      ensures value == Top(old(Current())) && Current() == Popped(old(Current()))
    {
      stackTop := stackTop - 1;
      value := contexts[currentContext].stack[stackTop];
      assert contexts[currentContext].stack[..stackTop] == contexts[currentContext].stack[..stackTop + 1][..stackTop];
    }

    // ---- Sends and returns ----

    /** Makes the context of a method, with an array for its temporaries, and goes on with it. */
    method NewContext(methodId: nat, arguments: nat, previous: nat)
      requires Active() && methodId in program.methods && (previous == NIL_CONTEXT || previous in contexts)
      modifies `contexts, `nextContext, `currentContext, `bytePointer, `stackTop, `objects
      ensures Active() && State() == Entered(program, old(State()), methodId, arguments, previous)
    {
      EnteredSound(program, State(), methodId, arguments, previous);
      var temporaries := NewArray(seq(program.methods[methodId].temporarySize, _ => program.nilObject));
      contexts := contexts[nextContext := Context(
        Info(methodId, arguments, temporaries, NIL_CONTEXT, 0, 0),
        seq(program.methods[methodId].stackSize, _ => program.nilObject), 0, 0, previous)];
      currentContext := nextContext;
      nextContext := nextContext + 4;
      LoadPointers();
    }

    /** Enters a method.  The caller is suspended, or elided when it would return next: a
        block's caller in front of a block return is the one below the method it was made for. */
    method EnterMethod(methodId: nat, arguments: nat)
      requires Active() && methodId in program.methods
      modifies `contexts, `nextContext, `currentContext, `bytePointer, `stackTop, `objects
      ensures Active()
      ensures State() == Applied(program, true, old(State()), Call(old(Current()), methodId, arguments, old(objects)))
    {
      hide Written;
      GoneSelf(program, State());
      StorePointers();
      LinkedIn(program, true, State(), Current().info, bytePointer);
      var caller := contexts[currentContext];
      var code := if caller.info.methodId in program.methods then program.methods[caller.info.methodId].code else [];
      if bytePointer < |code| && code[bytePointer] == STACK_RETURN_BYTE {
        NewContext(methodId, arguments, caller.previous);
      } else if bytePointer < |code| && code[bytePointer] == BLOCK_RETURN_BYTE && caller.info.IsBlock() {
        NewContext(methodId, arguments, contexts[caller.info.creating].previous);
      } else {
        NewContext(methodId, arguments, currentContext);
      }
    }

    /** A new array: its address, and the objects with it. */
    method NewArray(fields: seq<Value>) returns (address: nat)
      modifies `objects
      ensures address == program.allocate(old(objects))
      ensures objects == old(objects)[address := Object(program.arrayClass, fields)]
    {
      address := program.allocate(objects);
      objects := objects[address := Object(program.arrayClass, fields)];
    }

    method DoSendMessage(selector: Value, arguments: nat, klass: nat)
      requires Active() && !Send(program, Current(), selector, arguments, klass, objects).Fault?
      modifies this
      ensures Valid()
      ensures State() ==
              Applied(program, true, old(State()), old(Send(program, Current(), selector, arguments, klass, objects)))
    {
      hide Entered, Linked, Written, Sound;
      ghost var m := State();
      var found := program.lookup(selector, klass);
      if found != 0 {
        EnterMethod(found, arguments);
      } else {
        var bad := program.lookup(program.badMethodSymbol, klass);
        var address := NewArray([objects[arguments].fields[0], selector]);
        SoundAnew(m, stackTop, objects);
        AppliedAnew(program, m, stackTop, objects, Call(Current(), bad, address, objects));
        EnterMethod(bad, address);
      }
    }

    /** The class of a value: contexts and blocks have classes of their own. */
    method GetClass(v: Value) returns (klass: nat)
      requires Active()
      ensures klass == ClassOf(program, SiteOf(State()), objects, v)
    {
      if v % 2 == 1 {
        klass := program.smallIntClass;
      } else if v in contexts {
        klass := if contexts[v].info.IsBlock() then program.blockClass else program.contextClass;
      } else {
        klass := if v in objects then objects[v].klass else 0;
      }
    }

    method DoSendToReceiver(selector: Value, arguments: nat)
      requires Active() && !SendToReceiver(program, SiteOf(State()), Current(), selector, arguments, objects).Fault?
      modifies this
      ensures Valid()
      ensures State() == Applied(program, true, old(State()),
                                 old(SendToReceiver(program, SiteOf(State()), Current(), selector, arguments, objects)))
    {
      hide Sound, Applied, Send, ClassOf;
      var klass := GetClass(objects[arguments].fields[0]);
      DoSendMessage(selector, arguments, klass);
    }

    /** Every return: the context is left, and the value goes to the target if there is one. */
    method LeaveContext(target: nat, value: Value, saves: bool)
      requires Active() && (target == NIL_CONTEXT || target in contexts)
      modifies this
      ensures Valid() && State() == Delivered(program, old(State()), target, value, objects, saves)
      ensures objects == old(objects)
    {
      hide Written, Sound, SoundStore;
      ghost var m := State();
      ActiveParts();
      DeliveredSound(program, m, target, value, objects, saves);
      returnedValue := value;
      currentContext := target;
      if currentContext == NIL_CONTEXT { return; }
      LoadPointers();
      ResumedSound(m, target);
      StackPush(returnedValue);
      if saves {
        contexts := contexts[currentContext := contexts[currentContext].(stackTop := stackTop)];
      }
      assert State() == Delivered(program, m, target, value, objects, saves);
    }

    // ---- Instructions ----

    method DoPush(i: Instruction)
      requires Active() && Current().info.methodId in program.methods && PUSH_INSTANCE <= i.opcode <= PUSH_CONSTANT
      requires !Execute(program, SiteOf(State()), Current(), i, objects).Fault?
      modifies `contexts, `stackTop
      ensures Valid()
      ensures State() ==
              Applied(program, true, old(State()), old(Execute(program, SiteOf(State()), Current(), i, objects)))
    {
      hide Gone;
      var info := contexts[currentContext].info;
      var k := i.argument;
      if i.opcode == PUSH_INSTANCE {
        StackPush(objects[objects[info.arguments].fields[0]].fields[k]);
      } else if i.opcode == PUSH_ARGUMENT {
        StackPush(objects[info.arguments].fields[k]);
      } else if i.opcode == PUSH_TEMPORARY {
        StackPush(objects[info.temporaries].fields[k]);
      } else if i.opcode == PUSH_LITERAL {
        StackPush(program.methods[info.methodId].literals[k]);
      } else if k < 10 {
        StackPush(2 * k + 1);
      } else if k == 10 {
        StackPush(program.nilObject);
      } else {
        StackPush(if k == 11 then program.trueObject else program.falseObject);
      }
    }

    /** A block for the code behind the instruction, which is then skipped. */
    method DoPushBlock(i: Instruction)
      requires Active() && !PushBlock(SiteOf(State()), Current(), i, objects).Fault?
      modifies this
      ensures Valid()
      ensures State() == Applied(program, true, old(State()), old(PushBlock(SiteOf(State()), Current(), i, objects)))
    {
      hide Written, Sound, SoundStore, Used;
      ghost var m := State();
      ActiveParts();
      CreatorIn(m);
      NextIsNew(m);
      var c := contexts[currentContext];
      var creating := if c.info.IsBlock() then c.info.creating else currentContext;
      var stackSize := if c.info.methodId in program.methods then program.methods[c.info.methodId].stackSize else 0;
      var block := nextContext;
      var made := Context(
        Info(c.info.methodId, c.info.arguments, c.info.temporaries, creating, i.argument, bytePointer),
        seq(stackSize, _ => program.nilObject), 0, 0, NIL_CONTEXT);
      bytePointer := i.extra;
      BranchedSound(m, i.extra);
      StackPush(block);
      AddedSound(State(), made, nextContext + 4);
      contexts := contexts[block := made];
      nextContext := nextContext + 4;
    }

    method DoAssign(i: Instruction)
      requires Active() && Current().info.methodId in program.methods
      requires (i.opcode == ASSIGN_TEMPORARY || i.opcode == ASSIGN_INSTANCE)
      requires !Execute(program, SiteOf(State()), Current(), i, objects).Fault?
      modifies `objects
      ensures Valid()
      ensures State() ==
              Applied(program, true, old(State()), old(Execute(program, SiteOf(State()), Current(), i, objects)))
    {
      hide Gone;
      ghost var m := State();
      GoneSelf(program, m);
      var info := contexts[currentContext].info;
      var value := contexts[currentContext].stack[stackTop - 1];
      var target := if i.opcode == ASSIGN_TEMPORARY then info.temporaries else objects[info.arguments].fields[0];
      objects := objects[target := Assigned(objects[target], i.argument, value)];
      GoneObjects(program, m, TopFrame(m), m.objects, objects);
    }

    /** Takes the topmost k elements off the stack, in their order. */
    method DoMarkArguments(k: nat)
      requires Active() && !MarkArguments(program, Current(), k, objects).Fault?
      modifies `contexts, `stackTop, `objects
      ensures Valid()
      ensures State() == Applied(program, true, old(State()), old(MarkArguments(program, Current(), k, objects)))
    {
      ghost var m, f := State(), Current();
      var args := PopAll(k);
      var address := NewArray(args);
      SoundAnew(m, stackTop, objects);
      StackPush(address);
    }

    method PopAll(k: nat) returns (args: seq<Value>)
      requires Active() && k <= |Current().stack|
      modifies `stackTop
      ensures Active() && State() == old(State()).(stackTop := |old(Current()).stack| - k)
      ensures args == old(Current()).stack[|old(Current()).stack| - k..]
      ensures Current() == old(Current()).(stack := old(Current()).stack[..|old(Current()).stack| - k])
    {
      args := seq(k, _ => program.nilObject);
      var index := k;
      ghost var m, stack := State(), Current().stack;
      while index > 0
        invariant index <= k && Active() && stackTop == |stack| - (k - index)
        invariant State() == m.(stackTop := stackTop)
        invariant |args| == k && forall j | index <= j < k :: args[j] == stack[|stack| - k + j]
      {
        index := index - 1;
        var value := StackPop();
        args := args[index := value];
      }
    }

    method DoSendUnary(k: nat)
      requires Active() && !SendUnary(program, Current(), k, objects).Fault?
      modifies `contexts, `stackTop, `returnedValue
      ensures Valid()
      ensures State() == Applied(program, true, old(State()), old(SendUnary(program, Current(), k, objects)))
    {
      hide Written, Sound;
      var top := StackPop();
      if k == 0 {
        returnedValue := if top == program.nilObject then program.trueObject else program.falseObject;
      } else {
        returnedValue := if top != program.nilObject then program.trueObject else program.falseObject;
      }
      StackPush(returnedValue);
    }

    method DoSendBinary(k: nat)
      requires Active() && !SendBinary(program, SiteOf(State()), Current(), k, objects).Fault?
      modifies this
      ensures Valid()
      ensures State() ==
              Applied(program, true, old(State()), old(SendBinary(program, SiteOf(State()), Current(), k, objects)))
    {
      hide Written, Sound, SendToReceiver, IntegerOf, NewInteger;
      ghost var m := State();
      var right := StackPop();
      var left := StackPop();
      if left % 2 == 1 && right % 2 == 1 {
        var rightOperand, leftOperand := IntegerOf(right), IntegerOf(left);
        if k == 0 {
          returnedValue := if leftOperand < rightOperand then program.trueObject else program.falseObject;
        } else if k == 1 {
          returnedValue := if leftOperand <= rightOperand then program.trueObject else program.falseObject;
        } else {
          returnedValue := NewInteger(leftOperand + rightOperand);
        }
        StackPush(returnedValue);
      } else {
        ghost var m1 := State();
        var address := NewArray([left, right]);
        SoundAnew(m1, stackTop, objects);
        AppliedAnew(program, m, stackTop, objects,
                    SendToReceiver(program, SiteOf(State()), Current(), program.binaryMessages[k], address, objects));
        DoSendToReceiver(program.binaryMessages[k], address);
      }
    }

    /** Pops the arguments into the temporaries of the block, the last one first. */
    method LoadArguments(temporaries: nat, location: nat, count: nat)
      requires Active() && count <= |Current().stack|
      requires temporaries in objects && location + count <= |objects[temporaries].fields|
      modifies `stackTop, `objects
      ensures Active()
      ensures var stack, fields := old(Current()).stack, old(objects)[temporaries].fields;
        && State() == old(State()).(stackTop := |stack| - count, objects := objects)
        && objects ==
          old(objects)[temporaries := old(objects)[temporaries].(fields := Loaded(fields, stack, location, count, 0))]
    {
      ghost var m, stack, fields := State(), Current().stack, objects[temporaries].fields;
      ActiveParts();
      assert |stack| == stackTop;
      var index := count;
      while index > 0
        invariant 0 <= index <= count && Active() && stackTop == |stack| - (count - index)
        invariant State() == m.(stackTop := stackTop, objects := objects) && Current().stack == stack[..stackTop]
        invariant temporaries in objects && |objects[temporaries].fields| == |fields|
        invariant objects ==
                  old(objects)[temporaries := old(objects)[temporaries].(fields := objects[temporaries].fields)]
        invariant objects[temporaries].fields == Loaded(fields, stack, location, count, index)
      {
        index := index - 1;
        var value := StackPop();
        LoadedNext(fields, stack, location, count, index);
        objects := objects[temporaries := Assigned(objects[temporaries], location + index, value)];
      }
    }

    /** A failed primitive takes operands off the stack and leaves nil. */
    method FailPrimitive(popped: nat)
      requires Active() && popped <= |Current().stack|
      modifies `contexts, `stackTop
      ensures Active()
      ensures var f := old(Current());
        State() == Gone(program, old(State()), f.(stack := f.stack[..|f.stack| - popped] + [program.nilObject]),
                        objects)
    {
      hide Written, Sound;
      ghost var m, stack := State(), Current().stack;
      ActiveParts();
      stackTop := stackTop - popped;
      assert contexts[currentContext].stack[..stackTop] == stack[..|stack| - popped];
      SoundAnew(m, stackTop, objects);
      AppliedAnew(program, m, stackTop, objects, Go(Pushed(Current(), program.nilObject), objects));
      StackPush(program.nilObject);
    }

    /** The block takes the place of the current context. */
    method EnterBlock(block: nat)
      requires Active() && block in contexts
      modifies `contexts, `currentContext, `stackTop, `bytePointer
      ensures Valid() && State() == Applied(program, true, old(State()), Invoke(block, objects))
    {
      InvokedSound(State(), block, objects);
      contexts := contexts[block := contexts[block].(previous := contexts[currentContext].previous)];
      currentContext := block;
      stackTop := 0;
      bytePointer := contexts[block].info.blockBytePointer;
    }

    /** Primitive 8: the block on the stack takes the place of the context that invokes it. */
    method DoInvokeBlock(arguments: nat)
      requires Active() && !InvokeBlock(program, SiteOf(State()), Current(), arguments, objects).Fault?
      modifies this
      ensures Valid()
      ensures State() == Applied(program, true, old(State()),
                                 old(InvokeBlock(program, SiteOf(State()), Current(), arguments, objects)))
    {
      hide Written, Sound, Gone, InvokeBlock, Loaded;
      ghost var m, f := State(), Current();
      ActiveParts();
      InvokeCases(program, SiteOf(m), f, arguments, objects);
      var block := StackPop();
      ActiveParts();
      var info := contexts[block].info;
      if arguments == 0 {
        ghost var frame := Pushed(Current(), program.nilObject);
        AppliedAnew(program, m, stackTop, objects, Go(frame, objects));
        StackPush(program.nilObject);
        return;
      }
      var argCount := arguments - 1;
      if argCount > |objects[info.temporaries].fields| - info.argumentLocation {
        ghost var rest := Current().stack;
        AppliedAnew(program, m, stackTop, objects,
                    Go(f.(stack := rest[..|rest| - (argCount + 1)] + [program.nilObject]), objects));
        FailPrimitive(argCount + 1);
        return;
      }
      LoadArguments(info.temporaries, info.argumentLocation, argCount);
      AppliedAnew(program, m, stackTop, objects, Invoke(block, objects));
      ActiveParts();
      EnterBlock(block);
    }

    lemma ActiveParts()
      requires Active()
      ensures currentContext != NIL_CONTEXT && currentContext in contexts
      ensures stackTop <= |contexts[currentContext].stack| && !failed
      ensures NIL_CONTEXT !in contexts
      ensures forall id :: id in Infos(contexts) <==> id in contexts
      ensures forall id | id in contexts :: Infos(contexts)[id] == contexts[id].info
    {
      InfosHave(contexts);
    }

    /** A primitive: block invocation, or one of the services of the machine. */
    method DoPrimitiveInstruction(i: Instruction)
      requires Active() && !DoPrimitive(program, SiteOf(State()), Current(), i, objects).Fault?
      modifies this
      ensures Valid()
      ensures State() ==
              Applied(program, true, old(State()), old(DoPrimitive(program, SiteOf(State()), Current(), i, objects)))
    {
      hide Written, Sound, InvokeBlock;
      if i.extra == BLOCK_INVOKE {
        DoInvokeBlock(i.argument);
        return;
      }
      ghost var m := State();
      ActiveParts();
      PreviousIn(m);
      GoneSelf(program, m);
      var c := contexts[currentContext];
      match program.primitive(i.extra, i.argument, c.stack[..stackTop], objects)
      case Failed(popped, now) =>
        objects := now;
        SoundAnew(m, stackTop, objects);
        AppliedAnew(program, m, stackTop, objects, old(DoPrimitive(program, SiteOf(State()), Current(), i, objects)));
        FailPrimitive(popped);
      case Done(value, now) =>
        objects := now;
        SoundAnew(m, stackTop, objects);
        LeaveContext(c.previous, value, true);
        DeliveredAnew(program, m, m.stackTop, now, c.previous, value, now, true);
      case Kept(now) =>
        objects := now;
        SoundAnew(m, stackTop, objects);
        GoneObjects(program, m, TopFrame(m), m.objects, now);
      case Thrown(now) =>
        objects := now;
        failed := true;
        StoppedSound(State());
    }

    method DoSpecialInstruction(i: Instruction)
      requires Active() && Current().info.methodId in program.methods
      requires !DoSpecial(program, Current(), i, objects).Fault?
      modifies this
      ensures Valid()
      ensures State() == Applied(program, true, old(State()), old(DoSpecial(program, Current(), i, objects)))
    {
      hide Written, Sound, Delivered, Send;
      ghost var m := State();
      ActiveParts();
      PreviousIn(m);
      GoneSelf(program, m);
      var c := contexts[currentContext];
      if i.argument == SELF_RETURN {
        LeaveContext(c.previous, objects[c.info.arguments].fields[0], false);
      } else if i.argument == STACK_RETURN {
        var value := StackPop();
        LeaveContext(c.previous, value, false);
        DeliveredAnew(program, m, m.stackTop - 1, m.objects, c.previous, value, m.objects, false);
      } else if i.argument == BLOCK_RETURN {
        var value := StackPop();
        var target := contexts[c.info.creating].previous;
        LeaveContext(target, value, false);
        DeliveredAnew(program, m, m.stackTop - 1, m.objects, target, value, m.objects, false);
      } else if i.argument == DUPLICATE {
        StackPush(c.stack[stackTop - 1]);
      } else if i.argument == POP_TOP {
        var dropped := StackPop();
        GonePopped(program, m, bytePointer);
      } else if i.argument == BRANCH {
        bytePointer := i.extra;
        BranchedSound(m, i.extra);
        GoneBranched(program, m, i.extra);
      } else if i.argument == BRANCH_IF_TRUE || i.argument == BRANCH_IF_FALSE {
        returnedValue := StackPop();
        if returnedValue == (if i.argument == BRANCH_IF_TRUE then program.trueObject else program.falseObject) {
          ghost var m1 := State();
          bytePointer := i.extra;
          BranchedSound(m1, i.extra);
        }
        GonePopped(program, m, bytePointer);
      } else if i.argument == SEND_TO_SUPER {
        var method_ := program.methods[c.info.methodId];
        var arguments := StackPop();
        AppliedAnew(program, m, stackTop, objects,
                    Send(program, Current(), method_.literals[i.extra], arguments, method_.superclass, objects));
        DoSendMessage(method_.literals[i.extra], arguments, method_.superclass);
      }
    }

    /** Executes one decoded instruction. */
    method ExecuteInstruction(i: Instruction)
      requires Active() && Current().info.methodId in program.methods
      requires !Execute(program, SiteOf(State()), Current(), i, objects).Fault?
      modifies this
      ensures Valid()
      ensures State() ==
              Applied(program, true, old(State()), old(Execute(program, SiteOf(State()), Current(), i, objects)))
    {
      hide MarkArguments, SendUnary, SendBinary, DoPrimitive, DoSpecial, Send, SendToReceiver, PushConstant, PushBlock,
           Applied, Sound, Gone;
      ghost var m := State();
      ActiveParts();
      if PUSH_INSTANCE <= i.opcode <= PUSH_CONSTANT {
        DoPush(i);
      } else if i.opcode == PUSH_BLOCK {
        DoPushBlock(i);
      } else if i.opcode == ASSIGN_TEMPORARY || i.opcode == ASSIGN_INSTANCE {
        DoAssign(i);
      } else if i.opcode == MARK_ARGUMENTS {
        DoMarkArguments(i.argument);
      } else if i.opcode == SEND_MESSAGE {
        var selector := program.methods[contexts[currentContext].info.methodId].literals[i.argument];
        var arguments := StackPop();
        AppliedAnew(program, m, stackTop, objects,
                    SendToReceiver(program, SiteOf(State()), Current(), selector, arguments, objects));
        DoSendToReceiver(selector, arguments);
      } else if i.opcode == SEND_UNARY {
        DoSendUnary(i.argument);
      } else if i.opcode == SEND_BINARY {
        DoSendBinary(i.argument);
      } else if i.opcode == DO_PRIMITIVE {
        DoPrimitiveInstruction(i);
      } else {
        DoSpecialInstruction(i);
      }
    }

    /** Fetches, decodes and executes the next instruction. */
    method ExecuteNext()
      requires Active() && Step(program, true, State()) != Undefined
      modifies this
      ensures Valid() && State() == Step(program, true, old(State()))
    {
      hide Execute, Applied, Sound;
      ghost var m := State();
      ActiveParts();
      FaultIsUndefined(program, m, NextEffect(program, m));
      var code := program.methods[contexts[currentContext].info.methodId].code;
      var instruction := InstructionAt(code, bytePointer);
      bytePointer := NextOf(code, bytePointer);
      BranchedSound(m, bytePointer);
      AppliedAt(program, m, bytePointer, NextEffect(program, m));
      ExecuteInstruction(instruction);
    }

    /**
     * Runs the process for one instruction less than `ticks`, or until it ends.  The code it
     * meets must be defined.  What a process that uses blocks in an orderly way ends with is
     * what it ends with when every caller is linked.
     */
    method Run(ticks: nat, ghost c: seq<nat>) returns (ended: bool)
      requires Valid() && ticks > 0 && Steps(program, true, State(), ticks - 1) != Undefined
      modifies this
      ensures Valid() && (ended <==> !Steps(program, true, old(State()), ticks - 1).Running?)
      ensures ended ==> State() == Steps(program, true, old(State()), ticks - 1)
      ensures !ended ==>
        var now := Steps(program, true, old(State()), ticks - 1);
        now.current in now.contexts && State() == Suspended(now)
      ensures ended && Starts(program, old(State()), c) && Orderly(program, old(State())) ==>
                exists n: nat :: Steps(program, false, old(State()), n) == State()
    {
      hide Step, Sound, Starts, Orderly;
      ghost var p, start := program, State();
      var left := ticks;
      while !failed && currentContext != NIL_CONTEXT
        invariant Valid() && 0 < left <= ticks
        invariant Steps(p, true, State(), left - 1) == Steps(p, true, start, ticks - 1)
        decreases left
      {
        left := left - 1;
        if left == 0 {
          ActiveParts();
          assert State() == Steps(p, true, start, ticks - 1);
          StorePointers();
          return false;
        }
        UndefinedStays(p, State(), left);
        ExecuteNext();
      }
      Stays(p, true, State(), left - 1);
      ended := true;
      if Starts(p, start, c) && Orderly(p, start) { SameResult(p, start, c, State()); }
    }
  }

  /** Nothing is lost by where the outside pointer to the code was. */
  lemma AppliedAt(p: Program, m: Machine, pc: nat, effect: Effect)
    requires m.Running? && m.current in m.contexts
    ensures Applied(p, true, m.(bytePointer := pc), effect) == Applied(p, true, m, effect)
  {
    hide Written, Used, Linked;
  }

  lemma FaultIsUndefined(p: Program, m: Machine, effect: Effect)
    requires m.Running? && m.current in m.contexts
    ensures effect.Fault? ==> Applied(p, true, m, effect) == Undefined
  {
  }

  lemma UndefinedStays(p: Program, m: Machine, n: nat)
    requires n > 0
    ensures Steps(p, true, m, n) == Steps(p, true, Step(p, true, m), n - 1)
    ensures Step(p, true, m) == Undefined ==> Steps(p, true, m, n) == Undefined
  {
    if Step(p, true, m) == Undefined { Stays(p, true, Undefined, n - 1); }
  }

  lemma ResumedSound(m: Machine, target: nat)
    requires m.Running? && Sound(m) && target in m.contexts
    ensures var c := m.contexts[target];
            Sound(m.(current := target, stackTop := c.stackTop, bytePointer := c.bytePointer))
  {
  }

  lemma PreviousIn(m: Machine)
    requires m.Running? && Sound(m)
    ensures m.current in m.contexts
    ensures (m.contexts[m.current].previous == NIL_CONTEXT || m.contexts[m.current].previous in m.contexts)
    ensures var home := m.contexts[m.current].info.creating;
      home != NIL_CONTEXT ==>
        home in m.contexts && (m.contexts[home].previous == NIL_CONTEXT || m.contexts[home].previous in m.contexts)
  {
  }

  lemma DeliveredAnew(p: Program, m: Machine, stackTop: nat, objects: Objects, target: nat, value: Value, now: Objects,
                      saves: bool)
    requires m.Running?
    ensures Delivered(p, m.(stackTop := stackTop, objects := objects), target, value, now, saves) ==
            Delivered(p, m, target, value, now, saves)
  {
  }

  lemma GonePopped(p: Program, m: Machine, pc: nat)
    requires m.Running? && Sound(m) && m.stackTop > 0
    ensures TopFrame(m).stack != []
    ensures Gone(p, m, Popped(TopFrame(m)).(bytePointer := pc), m.objects) ==
            m.(stackTop := m.stackTop - 1, bytePointer := pc)
  {
    var c := m.contexts[m.current];
    var used := Popped(TopFrame(m)).stack;
    assert used == c.stack[..m.stackTop - 1];
    assert used + c.stack[m.stackTop - 1..] == c.stack;
    assert c.(stack := Written(p, c.stack, used)) == c;
  }

  lemma GoneBranched(p: Program, m: Machine, pc: nat)
    requires m.Running? && Sound(m)
    ensures Gone(p, m, TopFrame(m).(bytePointer := pc), m.objects) == m.(bytePointer := pc)
  {
    hide Written;
    GoneSelf(p, m);
  }

  lemma BranchedSound(m: Machine, pc: nat)
    requires m.Running? && Sound(m)
    ensures Sound(m.(bytePointer := pc))
  {
  }
}
