/**
 * The control flow of a range of bytecodes, and what its basic blocks have to be: which
 * offsets lead a block, what each block holds and where each block goes.
 */
module ControlFlow {
  import opened Instructions

  // ---- A range of code ----

  function At(code: Code, pc: nat): Instruction {
    if Complete(code, pc) then InstructionAt(code, pc) else Instruction(EXTENDED, 0, 0)
  }

  function After(code: Code, pc: nat): nat {
    if Complete(code, pc) then NextOf(code, pc) else pc + 1
  }

  /** The next instruction of the same range: the body of a nested block is stepped over. */
  function Step(code: Code, pc: nat): nat {
    if At(code, pc).opcode == PUSH_BLOCK then At(code, pc).extra else After(code, pc)
  }

  /**
   * The range is whole instructions, the body of every nested block is such a range again,
   * and the last instruction of each range leaves it.
   */
  predicate WellFormed(code: Code, pc: nat, stop: nat)
    decreases stop - pc
  {
    pc < stop <= |code| && Complete(code, pc)
    && if At(code, pc).opcode == PUSH_BLOCK then
         var end := At(code, pc).extra;
         After(code, pc) < end < stop && WellFormed(code, After(code, pc), end) && WellFormed(code, end, stop)
       else if After(code, pc) == stop then At(code, pc).IsTerminator() && !At(code, pc).IsConditional()
       else After(code, pc) < stop && WellFormed(code, After(code, pc), stop)
  }

  /** Stepping from pc arrives at the offset. */
  predicate Steps(code: Code, pc: nat, offset: nat)
    decreases if pc < offset then offset - pc else 0
  {
    pc == offset || (pc < offset && pc < Step(code, pc) <= offset && Steps(code, Step(code, pc), offset))
  }

  /** Every branch of the range goes to an instruction of the range. */
  predicate Targeted(code: Code, start: nat, pc: nat, stop: nat)
    decreases if pc < stop then stop - pc else 0
  {
    pc < stop && pc < Step(code, pc) ==>
      && (At(code, pc).IsBranch() ==>
            start <= At(code, pc).extra < stop && Steps(code, start, At(code, pc).extra))
      && Targeted(code, start, Step(code, pc), stop)
  }

  /** What the parser asks of a range, and of the ranges of the blocks nested in it. */
  predicate Sound(code: Code, start: nat, stop: nat)
    decreases if start < stop then stop - start else 0, 1
  {
    stop < 65536 && WellFormed(code, start, stop) && Targeted(code, start, start, stop) && Nested(code, start, stop)
  }

  predicate Nested(code: Code, pc: nat, stop: nat)
    decreases if pc < stop then stop - pc else 0, 0
  {
    pc < stop && pc < Step(code, pc) ==>
      && (At(code, pc).opcode == PUSH_BLOCK && pc < After(code, pc) && At(code, pc).extra <= stop ==>
            Sound(code, After(code, pc), At(code, pc).extra))
      && Nested(code, Step(code, pc), stop)
  }

  // ---- Leaders ----

  /** The offsets at which a branch at pc makes a block begin. */
  function Marks(code: Code, pc: nat): seq<nat> {
    var i := At(code, pc);
    if i.IsConditional() then [After(code, pc), i.extra] else if i.IsBranch() then [i.extra] else []
  }

  function Listed(order: seq<nat>, offset: nat): seq<nat> {
    if offset in order then order else order + [offset]
  }

  function ListedAll(order: seq<nat>, marks: seq<nat>): seq<nat>
    decreases |marks|
  {
    if marks == [] then order else ListedAll(Listed(order, marks[0]), marks[1..])
  }

  /** The blocks found by scanning from pc on, in the order of their discovery. */
  function Found(code: Code, pc: nat, stop: nat, order: seq<nat>): seq<nat>
    decreases if pc < stop then stop - pc else 0
  {
    if pc < stop && pc < Step(code, pc) then Found(code, Step(code, pc), stop, ListedAll(order, Marks(code, pc)))
    else order
  }

  /** All blocks of the range; the start block goes first unless a branch leads to it. */
  function Leaders(code: Code, start: nat, stop: nat): seq<nat> {
    var found := Found(code, start, stop, []);
    if start in found then found else [start] + found
  }

  lemma {:induction false} ListedKeeps(order: seq<nat>, marks: seq<nat>)
    ensures order <= ListedAll(order, marks)
    decreases |marks|
  {
    if marks != [] { ListedKeeps(Listed(order, marks[0]), marks[1..]); }
  }

  /** What has been found keeps its place. */
  lemma {:induction false} FoundKeeps(code: Code, pc: nat, stop: nat, order: seq<nat>)
    ensures order <= Found(code, pc, stop, order)
    decreases if pc < stop then stop - pc else 0
  {
    if pc < stop && pc < Step(code, pc) {
      ListedKeeps(order, Marks(code, pc));
      FoundKeeps(code, Step(code, pc), stop, ListedAll(order, Marks(code, pc)));
    }
  }

  /** Of the two blocks that a conditional branch makes begin the one behind it is found first; a
      start that no branch leads to is put in front of all that are found. */
  lemma DiscoveryOrder(code: Code, pc: nat, stop: nat, order: seq<nat>)
    requires pc < stop && pc < Step(code, pc) && At(code, pc).IsConditional()
    requires After(code, pc) !in order && At(code, pc).extra !in order && After(code, pc) != At(code, pc).extra
    ensures order + [After(code, pc), At(code, pc).extra] <= Found(code, pc, stop, order)
    ensures pc !in Found(code, pc, stop, []) ==>
              Leaders(code, pc, stop) == [pc] + Found(code, pc, stop, [])
  {
    var next, target := After(code, pc), At(code, pc).extra;
    assert [next, target][1..] == [target] && [target][1..] == [];
    assert ListedAll(order + [next] + [target], []) == order + [next] + [target];
    assert ListedAll(order, [next, target]) == order + [next] + [target];
    FoundKeeps(code, Step(code, pc), stop, ListedAll(order, Marks(code, pc)));
  }

  // ---- What a block holds ----

  /** The branch that links a block to the one it runs into. */
  function Link(offset: nat): Instruction {
    Instruction(DO_SPECIAL, BRANCH, offset)
  }

  /** How a block ends: by running into the next leader, by the terminator at pc, or by leaving the range. */
  datatype Exit = Into(leader: nat) | By(pc: nat) | Out

  /** The instructions of the block at pc: up to a terminator, or linked to the next leader. */
  function Body(code: Code, leaders: set<nat>, pc: nat, stop: nat, first: bool): seq<Instruction>
    decreases if pc < stop then stop - pc else 0
  {
    if !first && pc in leaders then [Link(pc)]
    else if pc >= stop || Step(code, pc) <= pc then []
    else if At(code, pc).IsTerminator() then [At(code, pc)]
    else [At(code, pc)] + Body(code, leaders, Step(code, pc), stop, false)
  }

  function ExitOf(code: Code, leaders: set<nat>, pc: nat, stop: nat, first: bool): Exit
    decreases if pc < stop then stop - pc else 0
  {
    if !first && pc in leaders then Into(pc)
    else if pc >= stop || Step(code, pc) <= pc then Out
    else if At(code, pc).IsTerminator() then By(pc)
    else ExitOf(code, leaders, Step(code, pc), stop, false)
  }

  /** Where a block goes. */
  function Successors(code: Code, leaders: set<nat>, leader: nat, stop: nat): set<nat> {
    match ExitOf(code, leaders, leader, stop, true)
    case Into(next) => {next}
    case By(pc) => set m | m in Marks(code, pc)
    case Out => {}
  }

  // ---- Instruction boundaries ----

  lemma StepFits(code: Code, pc: nat, stop: nat)
    requires WellFormed(code, pc, stop)
    ensures Complete(code, pc) && pc < After(code, pc) && pc < Step(code, pc) <= stop
    ensures Step(code, pc) < stop ==> WellFormed(code, Step(code, pc), stop)
    ensures Step(code, pc) == stop ==> At(code, pc).IsTerminator() && !At(code, pc).IsConditional()
    ensures At(code, pc).IsTerminator() ==> Step(code, pc) == After(code, pc)
  {
  }

  lemma {:induction false} StepsTransitive(code: Code, a: nat, b: nat, c: nat)
    requires Steps(code, a, b) && Steps(code, b, c)
    ensures Steps(code, a, c) && a <= c
    decreases if a < b then b - a else 0
  {
    if a != b {
      StepsTransitive(code, Step(code, a), b, c);
    } else {
      StepsForward(code, b, c);
    }
  }

  lemma StepsForward(code: Code, a: nat, b: nat)
    requires Steps(code, a, b)
    ensures a <= b
  {
  }

  /** Of two offsets stepped on from one place, the nearer steps on the farther. */
  lemma {:induction false} StepsBetween(code: Code, a: nat, b: nat, c: nat)
    requires Steps(code, a, b) && Steps(code, a, c) && b <= c
    ensures Steps(code, b, c)
    decreases if a < b then b - a else 0
  {
    if a != b { StepsBetween(code, Step(code, a), b, c); }
  }

  lemma {:induction false} WellFormedAt(code: Code, pc: nat, stop: nat, offset: nat)
    requires WellFormed(code, pc, stop) && Steps(code, pc, offset) && offset < stop
    ensures WellFormed(code, offset, stop)
    decreases if pc < offset then offset - pc else 0
  {
    if pc != offset {
      StepFits(code, pc, stop);
      WellFormedAt(code, Step(code, pc), stop, offset);
    }
  }

  /** Decoding on without stepping over nested blocks, as the parser does in dead code, passes the offset. */
  predicate Hits(code: Code, pc: nat, offset: nat)
    decreases if pc < offset then offset - pc else 0
  {
    pc == offset ||
    (pc < offset && Complete(code, pc) && pc < After(code, pc) <= offset && Hits(code, After(code, pc), offset))
  }

  lemma {:induction false} HitsTransitive(code: Code, a: nat, b: nat, c: nat)
    requires Hits(code, a, b) && Hits(code, b, c)
    ensures Hits(code, a, c) && a <= c
    decreases if a < b then b - a else 0
  {
    if a != b { HitsTransitive(code, After(code, a), b, c); }
  }

  lemma {:induction false} HitsEnd(code: Code, pc: nat, stop: nat)
    requires WellFormed(code, pc, stop)
    ensures Hits(code, pc, stop)
    decreases stop - pc
  {
    var next := After(code, pc);
    if At(code, pc).opcode == PUSH_BLOCK {
      var end := At(code, pc).extra;
      HitsEnd(code, next, end);
      HitsEnd(code, end, stop);
      HitsTransitive(code, next, end, stop);
    } else if next < stop {
      HitsEnd(code, next, stop);
    }
  }

  /** What is stepped on is hit as well: nested blocks are whole instructions. */
  lemma {:induction false} StepsHits(code: Code, pc: nat, stop: nat, offset: nat)
    requires WellFormed(code, pc, stop) && Steps(code, pc, offset) && offset <= stop
    ensures Hits(code, pc, offset)
    decreases stop - pc
  {
    if pc != offset {
      var next := After(code, pc);
      if At(code, pc).opcode == PUSH_BLOCK {
        HitsEnd(code, next, Step(code, pc));
        StepsHits(code, Step(code, pc), stop, offset);
        HitsTransitive(code, next, Step(code, pc), offset);
      } else if next < stop {
        StepsHits(code, next, stop, offset);
      }
    }
  }

  // ---- Leaders are instructions of the range ----

  ghost predicate Boundary(code: Code, start: nat, stop: nat, offset: nat) {
    start <= offset < stop && Steps(code, start, offset)
  }

  lemma {:induction false} TargetedAt(code: Code, start: nat, pc: nat, stop: nat, at: nat)
    requires WellFormed(code, pc, stop) && Targeted(code, start, pc, stop) && Steps(code, pc, at) && at < stop
    ensures Targeted(code, start, at, stop)
    decreases if pc < at then at - pc else 0
  {
    if pc != at {
      StepFits(code, pc, stop);
      TargetedAt(code, start, Step(code, pc), stop, at);
    }
  }

  lemma {:induction false} NestedAt(code: Code, pc: nat, stop: nat, at: nat)
    requires WellFormed(code, pc, stop) && Nested(code, pc, stop) && Steps(code, pc, at) && at < stop
    ensures Nested(code, at, stop)
    decreases if pc < at then at - pc else 0
  {
    if pc != at {
      StepFits(code, pc, stop);
      NestedAt(code, Step(code, pc), stop, at);
    }
  }

  /** The marks of an instruction of the range are boundaries. */
  lemma MarksFit(code: Code, start: nat, stop: nat, pc: nat)
    requires Sound(code, start, stop) && Boundary(code, start, stop, pc)
    ensures forall m: nat | m in Marks(code, pc) :: Boundary(code, start, stop, m)
  {
    WellFormedAt(code, start, stop, pc);
    StepFits(code, pc, stop);
    TargetedAt(code, start, start, stop, pc);
    if At(code, pc).IsConditional() {
      assert Steps(code, pc, After(code, pc));
      StepsTransitive(code, start, pc, After(code, pc));
    }
  }

  predicate Distinct(order: seq<nat>) {
    forall i, j | 0 <= i < j < |order| :: order[i] != order[j]
  }

  lemma {:induction false} ListedAllHas(order: seq<nat>, marks: seq<nat>)
    requires Distinct(order)
    ensures Distinct(ListedAll(order, marks))
    ensures forall m: nat :: m in ListedAll(order, marks) <==> m in order || m in marks
    decreases |marks|
  {
    if marks != [] {
      ListedAllHas(Listed(order, marks[0]), marks[1..]);
      assert marks == [marks[0]] + marks[1..];
    }
  }

  /** Some instruction stepped on from pc makes a block begin at m. */
  ghost predicate Marked(code: Code, pc: nat, stop: nat, m: nat) {
    exists at: nat :: Steps(code, pc, at) && at < stop && m in Marks(code, at)
  }

  lemma MarkedStep(code: Code, pc: nat, stop: nat, m: nat)
    requires WellFormed(code, pc, stop)
    ensures Marked(code, pc, stop, m) <==>
      m in Marks(code, pc) || (Step(code, pc) < stop && Marked(code, Step(code, pc), stop, m))
  {
    StepFits(code, pc, stop);
    var next := Step(code, pc);
    if m in Marks(code, pc) { assert Steps(code, pc, pc); }
    if next < stop && Marked(code, next, stop, m) {
      var at: nat :| Steps(code, next, at) && at < stop && m in Marks(code, at);
      StepsForward(code, next, at);
      assert Steps(code, pc, at);
    }
    if Marked(code, pc, stop, m) {
      var at: nat :| Steps(code, pc, at) && at < stop && m in Marks(code, at);
      if at != pc { StepsForward(code, next, at); }
    }
  }

  /** Scanning finds exactly what it had and the marks of the instructions stepped on. */
  lemma {:induction false} FoundHas(code: Code, pc: nat, stop: nat, order: seq<nat>)
    requires WellFormed(code, pc, stop) && Distinct(order)
    ensures Distinct(Found(code, pc, stop, order))
    ensures forall m: nat :: m in Found(code, pc, stop, order) <==> m in order || Marked(code, pc, stop, m)
    decreases stop - pc
  {
    hide Marked, Marks, Steps, ListedAll;
    StepFits(code, pc, stop);
    var more := ListedAll(order, Marks(code, pc));
    ListedAllHas(order, Marks(code, pc));
    var next := Step(code, pc);
    if next < stop { FoundHas(code, next, stop, more); }
    forall m: nat
      ensures m in Found(code, pc, stop, order) <==> m in order || Marked(code, pc, stop, m)
    {
      MarkedStep(code, pc, stop, m);
    }
  }

  ghost function LeaderSet(code: Code, start: nat, stop: nat): set<nat> {
    set l | l in Leaders(code, start, stop)
  }

  /** The leaders are the start and the marks of all instructions of the range; all of them are boundaries. */
  lemma LeadersFit(code: Code, start: nat, stop: nat)
    requires Sound(code, start, stop)
    ensures Distinct(Leaders(code, start, stop)) && start in LeaderSet(code, start, stop)
    ensures forall l | l in LeaderSet(code, start, stop) :: Boundary(code, start, stop, l)
    ensures forall at: nat, m: nat | Boundary(code, start, stop, at) && m in Marks(code, at) ::
              m in LeaderSet(code, start, stop)
  {
    FoundHas(code, start, stop, []);
    assert Boundary(code, start, stop, start);
    forall l | l in Found(code, start, stop, [])
      ensures Boundary(code, start, stop, l)
    {
      var at: nat :| Steps(code, start, at) && at < stop && l in Marks(code, at);
      StepsForward(code, start, at);
      MarksFit(code, start, stop, at);
    }
  }
}
