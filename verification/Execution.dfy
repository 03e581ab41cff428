/**
 * The parser's control flow is that of the machine: which instructions branch and return, and
 * which instructions a context executes one after the other, is what the interpreter does.
 */
module Execution {
  import opened Instructions
  import opened ControlFlow
  import opened BasicBlocks
  import opened Pruning
  import opened Contexts

  /** The machine stands at an instruction of the range's code, with room for a new context. */
  ghost predicate Here(p: Program, m: Machine, r: Range) {
    && m.Running? && m.current in m.contexts && m.stackTop <= |m.contexts[m.current].stack|
    && m.contexts[m.current].info.methodId in p.methods && p.methods[m.contexts[m.current].info.methodId].code == r.code
    && Complete(r.code, m.bytePointer) && m.next !in m.contexts
  }

  /** The context stays at work and goes on at pc, or waits for a called method and goes on there when that returns. */
  ghost predicate GoesOnAt(p: Program, elide: bool, m: Machine, pc: nat)
    requires m.Running? && m.current in m.contexts
  {
    var effect, now := NextEffect(p, m), Contexts.Step(p, elide, m);
    if effect.Go? || effect.Make? then now.Running? && now.current == m.current && now.bytePointer == pc
    else
      && effect.Call? && now.Running? && now.current == m.next && m.current in now.contexts
      && now.contexts[m.current].bytePointer == pc
  }

  /** What the machine is asked to do next, by kind. */
  ghost predicate StaysOrCalls(effect: Effect, p: Program) {
    effect.Go? || effect.Make? || (effect.Call? && effect.methodId in p.methods)
  }

  lemma NextIs(p: Program, m: Machine, r: Range)
    requires Here(p, m, r)
    ensures NextEffect(p, m) ==
            Execute(p, SiteOf(m), Frame(m.contexts[m.current].info, m.contexts[m.current].stack[..m.stackTop],
                                        After(r.code, m.bytePointer)), At(r.code, m.bytePointer), m.objects)
  {
    hide Execute, Complete, InstructionAt, NextOf;
  }

  /** Where the frame of each effect stands. */
  lemma FrameStands(p: Program, s: Site, f: Frame, i: Instruction, objects: Objects, pc: nat)
    requires f.info.methodId in p.methods
    ensures var effect := Execute(p, s, f, i, objects);
      && (effect.Go? ==>
            effect.frame.bytePointer ==
            if i.IsBranch() && (i.IsConditional() ==> f.stack != [] && Top(f) == Wanted(p, i)) then i.extra
            else f.bytePointer)
      && (effect.Make? ==> i.opcode == 12 && effect.frame.bytePointer == i.extra)
      && (effect.Go? ==> i.opcode != 12)
      && (effect.Call? ==> effect.caller.bytePointer == f.bytePointer && !i.IsBranch() && i.opcode != 12)
  {
    hide ClassOf;
  }

  /** The value on which a conditional branch goes to its offset. */
  function Wanted(p: Program, i: Instruction): Value {
    if i.argument == 7 then p.trueObject else p.falseObject
  }

  /** Whatever does not leave its context goes on where the raw code goes on, and is no return. */
  lemma ContinuesRaw(p: Program, elide: bool, m: Machine, r: Range) returns (taken: bool)
    requires Here(p, m, r) && StaysOrCalls(NextEffect(p, m), p)
    ensures GoesOnAt(p, elide, m, RawNext(r, m.bytePointer, taken))
    ensures !At(r.code, m.bytePointer).IsReturn()
  {
    hide Execute, Complete, At, After, NextEffect, Written;
    var i := At(r.code, m.bytePointer);
    var f := Frame(m.contexts[m.current].info, m.contexts[m.current].stack[..m.stackTop], After(r.code, m.bytePointer));
    NextIs(p, m, r);
    FrameStands(p, SiteOf(m), f, i, m.objects, m.bytePointer);
    ReturnLeaves(p, SiteOf(m), f, i, m.objects);
    taken := i.IsConditional() && f.stack != [] && Top(f) == Wanted(p, i);
  }

  /** A returning instruction gives its value away, and among those of the doSpecial group no other does. */
  lemma ReturnLeaves(p: Program, s: Site, f: Frame, i: Instruction, objects: Objects)
    requires f.info.methodId in p.methods
    ensures var effect := Execute(p, s, f, i, objects);
      && (i.IsReturn() ==> effect.Give? || effect.GiveHome? || effect.Fault?)
      && (i.opcode == 15 && (effect.Give? || effect.GiveHome?) ==> i.IsReturn())
  {
    hide ClassOf;
  }

  /** Among the instructions with the opcode 15 those leave the context that return, and no others. */
  lemma LeavesIff(p: Program, m: Machine, r: Range)
    requires Here(p, m, r) && At(r.code, m.bytePointer).opcode == 15 && !NextEffect(p, m).Fault?
    ensures At(r.code, m.bytePointer).IsReturn() <==> NextEffect(p, m).Give? || NextEffect(p, m).GiveHome?
  {
    hide Execute, Complete, At, After, NextEffect;
    NextIs(p, m, r);
    ReturnLeaves(p, SiteOf(m),
                 Frame(m.contexts[m.current].info, m.contexts[m.current].stack[..m.stackTop],
                       After(r.code, m.bytePointer)),
                 At(r.code, m.bytePointer), m.objects);
  }

  /** The machine with another value on top of the stack. */
  function WithTop(m: Machine, v: Value): Machine
    requires m.Running? && m.current in m.contexts && 0 < m.stackTop <= |m.contexts[m.current].stack|
  {
    var c := m.contexts[m.current];
    m.(contexts := m.contexts[m.current := c.(stack := c.stack[m.stackTop - 1 := v])], stackTop := m.stackTop)
  }

  /** An instruction is a conditional branch exactly if the value on top decides whether the context goes
      on at the offset or behind the instruction. */
  lemma ConditionalIff(p: Program, elide: bool, m: Machine, r: Range)
    requires Here(p, m, r) && m.stackTop > 0
    requires At(r.code, m.bytePointer).extra != After(r.code, m.bytePointer)
    ensures var i := At(r.code, m.bytePointer);
      i.IsConditional() <==>
        && (exists v :: GoesOnAt(p, elide, WithTop(m, v), i.extra))
        && (exists v :: GoesOnAt(p, elide, WithTop(m, v), After(r.code, m.bytePointer)))
  {
    hide Execute, Complete, At, After, NextEffect, GoesOnAt;
    var i, next := At(r.code, m.bytePointer), After(r.code, m.bytePointer);
    if i.IsConditional() {
      ConditionalGoes(p, elide, m, r, Wanted(p, i));
      ConditionalGoes(p, elide, m, r, Wanted(p, i) + 1);
    } else if v :| GoesOnAt(p, elide, WithTop(m, v), i.extra) {
      if w :| GoesOnAt(p, elide, WithTop(m, w), next) {
        OnlyOneWay(p, elide, WithTop(m, v), r, i.extra);
        OnlyOneWay(p, elide, WithTop(m, w), r, next);
      }
    }
  }

  lemma ConditionalGoes(p: Program, elide: bool, m: Machine, r: Range, v: Value)
    requires Here(p, m, r) && m.stackTop > 0 && At(r.code, m.bytePointer).IsConditional()
    ensures var i := At(r.code, m.bytePointer);
      GoesOnAt(p, elide, WithTop(m, v), if v == Wanted(p, i) then i.extra else After(r.code, m.bytePointer))
  {
    hide Execute, Complete, At, After, NextEffect, Written;
    var now := WithTop(m, v);
    var i := At(r.code, m.bytePointer);
    NextIs(p, now, r);
    var f := Frame(now.contexts[m.current].info, now.contexts[m.current].stack[..m.stackTop],
                   After(r.code, m.bytePointer));
    ConditionalStays(p, SiteOf(now), f, i, m.objects);
    FrameStands(p, SiteOf(now), f, i, m.objects, m.bytePointer);
  }

  lemma ConditionalStays(p: Program, s: Site, f: Frame, i: Instruction, objects: Objects)
    requires f.info.methodId in p.methods && i.IsConditional() && f.stack != []
    ensures Execute(p, s, f, i, objects).Go?
  {
  }

  lemma OnlyOneWay(p: Program, elide: bool, m: Machine, r: Range, pc: nat)
    requires Here(p, m, r) && GoesOnAt(p, elide, m, pc) && !At(r.code, m.bytePointer).IsConditional()
    ensures pc == RawNext(r, m.bytePointer, true)
  {
    hide Execute, Complete, At, After, NextEffect, Written, Linked;
    var taken := ContinuesRaw(p, elide, m, r);
  }

  // ---- What a context executes ----

  /**
   * The machines at which one context executes its instructions, one after the other: each goes
   * on where the one before said, at once or after a called method has returned.
   */
  ghost predicate Thread(p: Program, elide: bool, r: Range, ms: seq<Machine>) {
    && (forall k | 0 <= k < |ms| :: Here(p, ms[k], r))
    && forall k | 0 <= k < |ms| - 1 :: Follows(p, elide, ms[k], ms[k + 1])
  }

  ghost predicate Follows(p: Program, elide: bool, m: Machine, later: Machine) {
    && m.Running? && m.current in m.contexts && later.Running?
    && StaysOrCalls(NextEffect(p, m), p) && GoesOnAt(p, elide, m, later.bytePointer)
  }

  ghost function Executed(r: Range, ms: seq<Machine>): seq<Instruction>
    requires forall k | 0 <= k < |ms| :: ms[k].Running?
  {
    if ms == [] then [] else [At(r.code, ms[0].bytePointer)] + Executed(r, ms[1..])
  }

  /** From an instruction of the range that is no return the raw code goes on in the range. */
  lemma RawStays(r: Range, pc: nat, taken: bool)
    requires r.IsSound() && r.Has(pc) && !At(r.code, pc).IsReturn()
    ensures r.Has(RawNext(r, pc, taken)) && pc < r.stop
  {
    hide Sound, LeaderSet, Successors, ExitOf, Body;
    StepStays(r, pc);
    LeadersFit(r.code, r.start, r.stop);
    MarksLead(r, pc);
    if At(r.code, pc).IsConditional() {
      assert Marks(r.code, pc)[0] == After(r.code, pc) && Marks(r.code, pc)[1] == At(r.code, pc).extra;
    } else if At(r.code, pc).IsBranch() {
      assert Marks(r.code, pc)[0] == At(r.code, pc).extra;
    }
  }

  /** What a context executes is a run of the raw code, for some choice of its branches. */
  lemma {:induction false} ThreadIsRawRun(p: Program, elide: bool, r: Range, ms: seq<Machine>)
    returns (taken: nat -> bool)
    requires r.IsSound() && Thread(p, elide, r, ms) && ms != [] && r.Has(ms[0].bytePointer)
    ensures Executed(r, ms) == RawRun(r, ms[0].bytePointer, taken, |ms|)
    decreases |ms|
  {
    hide Range.IsSound, Range.Has, Here, Follows, RawNext, At;
    taken := (_: nat) => false;
    RunsHere(p, r, ms[0]);
    InRange(r, ms[0].bytePointer);
    if |ms| == 1 {
      assert ms[1..] == [];
      OneRaw(r, ms[0].bytePointer, taken);
    } else {
      RunsHere(p, r, ms[1]);
      var pc := ms[0].bytePointer;
      assert Follows(p, elide, ms[0], ms[0 + 1]);
      var first := ThreadGoes(p, elide, r, ms[0], ms[1]);
      RawStays(r, pc, first);
      ThreadRest(p, elide, r, ms);
      var rest := ThreadIsRawRun(p, elide, r, ms[1..]);
      taken := Deciding(rest, |ms|, first);
      RawRunSame(r, ms[1].bytePointer, rest, taken, |ms| - 1);
    }
  }

  lemma RunsHere(p: Program, r: Range, m: Machine)
    requires Here(p, m, r)
    ensures m.Running? && m.current in m.contexts
  {
  }

  lemma InRange(r: Range, pc: nat)
    requires r.IsSound() && r.Has(pc)
    ensures pc < r.stop
  {
  }

  lemma OneRaw(r: Range, pc: nat, taken: nat -> bool)
    requires pc < r.stop
    ensures RawRun(r, pc, taken, 1) == [At(r.code, pc)]
  {
    assert RawRun(r, RawNext(r, pc, taken(1)), taken, 0) == [];
  }

  lemma ThreadRest(p: Program, elide: bool, r: Range, ms: seq<Machine>)
    requires Thread(p, elide, r, ms) && ms != []
    ensures Thread(p, elide, r, ms[1..])
  {
    hide Here, Follows;
    forall k | 0 <= k < |ms[1..]| - 1
      ensures Follows(p, elide, ms[1..][k], ms[1..][k + 1])
    {
      assert Follows(p, elide, ms[k + 1], ms[k + 1 + 1]);
    }
  }

  lemma ThreadGoes(p: Program, elide: bool, r: Range, m: Machine, later: Machine) returns (taken: bool)
    requires Here(p, m, r) && Follows(p, elide, m, later)
    ensures m.Running? && later.Running? && later.bytePointer == RawNext(r, m.bytePointer, taken)
    ensures !At(r.code, m.bytePointer).IsReturn()
  {
    hide Here, NextEffect, RawNext, At;
    taken := ContinuesRaw(p, elide, m, r);
  }

  /** So is it a run of the parsed blocks, where these mean what the code means. */
  lemma ThreadIsBlockRun(p: Program, elide: bool, r: Range, ms: seq<Machine>, blocks: Blocks)
    returns (taken: nat -> bool)
    requires r.IsSound() && Thread(p, elide, r, ms) && ms != [] && ms[0].Running? && ms[0].bytePointer == r.start
    requires RunsTheSame(r, blocks)
    ensures Executed(r, ms) == BlockRun(r, blocks, r.start, 0, taken, |ms|)
  {
    hide Sound, Here, Follows, BlockRun, RawRun, Executed;
    StartInRange(r);
    taken := ThreadIsRawRun(p, elide, r, ms);
  }

  lemma StartInRange(r: Range)
    requires r.IsSound()
    ensures r.Has(r.start)
  {
  }
}
