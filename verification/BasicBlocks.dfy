/** Basic blocks: what filling them builds and what pruning them keeps. */
module BasicBlocks {
  import opened Instructions
  import opened ControlFlow

  /** A block and the offsets of the blocks that go to it; blocks are named by their offset. */
  datatype Block = Block(instructions: seq<Instruction>, referers: set<nat>) {

    predicate HasTerminator() {
      instructions != [] && instructions[|instructions| - 1].IsTerminator()
    }

    function Last(): Instruction
      requires instructions != []
    {
      instructions[|instructions| - 1]
    }
  }

  type Blocks = map<nat, Block>

  datatype Range = Range(code: Code, start: nat, stop: nat) {

    ghost predicate IsSound() {
      Sound(code, start, stop)
    }

    /** The offsets at which blocks begin, as the parser lists them. */
    function Order(): seq<nat> {
      Leaders(code, start, stop)
    }

    ghost function Leads(): set<nat> {
      LeaderSet(code, start, stop)
    }

    /** What the block at a leader holds. */
    ghost function Holds(leader: nat): seq<Instruction> {
      Body(code, Leads(), leader, stop, true)
    }

    ghost function Leaves(leader: nat): Exit {
      ExitOf(code, Leads(), leader, stop, true)
    }

    ghost function Goes(leader: nat): set<nat> {
      Successors(code, Leads(), leader, stop)
    }

    ghost predicate Has(offset: nat) {
      Boundary(code, start, stop, offset)
    }
  }

  lemma LeaderHas(r: Range, l: nat)
    requires r.IsSound() && l in r.Leads()
    ensures r.Has(l) && r.start <= l < r.stop && r.start in r.Leads()
  {
    LeadersFit(r.code, r.start, r.stop);
  }

  // ---- How a block ends ----

  /** From an instruction that does not end its block the next one is of the range as well, before any later leader. */
  lemma StepStays(r: Range, pc: nat)
    requires r.IsSound() && r.Has(pc)
    ensures pc < r.stop && pc < Step(r.code, pc)
    ensures !At(r.code, pc).IsTerminator() ==> r.Has(Step(r.code, pc))
    ensures forall l | l in r.Leads() && pc < l :: Step(r.code, pc) <= l
  {
    LeadersFit(r.code, r.start, r.stop);
    WellFormedAt(r.code, r.start, r.stop, pc);
    StepFits(r.code, pc, r.stop);
    assert Steps(r.code, pc, Step(r.code, pc));
    StepsTransitive(r.code, r.start, pc, Step(r.code, pc));
    forall l | l in r.Leads() && pc < l
      ensures Step(r.code, pc) <= l
    {
      StepsBetween(r.code, r.start, pc, l);
    }
  }

  /** From an instruction of the range the block runs to a terminator or to a leader, past no other leader. */
  lemma {:induction false} ExitFits(r: Range, pc: nat, first: bool)
    requires r.IsSound() && r.Has(pc)
    ensures match ExitOf(r.code, r.Leads(), pc, r.stop, first)
      case Into(next) => next in r.Leads() && pc <= next && (first ==> pc < next)
        && forall l | l in r.Leads() && (if first then pc < l else pc <= l) :: next <= l
      case By(t) => pc <= t && r.Has(t) && At(r.code, t).IsTerminator()
        && forall l | l in r.Leads() && (if first then pc < l else pc <= l) :: t < l
      case Out => false
    decreases r.stop - pc
  {
    hide Range.IsSound, Range.Has, Range.Leads, At, Step;
    StepStays(r, pc);
    if (first || pc !in r.Leads()) && !At(r.code, pc).IsTerminator() { ExitFits(r, Step(r.code, pc), false); }
  }

  /** What the last instruction of a block says: a link to the next leader, or the terminator itself. */
  lemma {:induction false} BodyEnds(r: Range, pc: nat, first: bool)
    requires r.IsSound() && r.Has(pc)
    ensures var b := Body(r.code, r.Leads(), pc, r.stop, first);
      b != [] && match ExitOf(r.code, r.Leads(), pc, r.stop, first)
        case Into(next) => b[|b| - 1] == Link(next)
        case By(t) => b[|b| - 1] == At(r.code, t)
        case Out => false
    decreases r.stop - pc
  {
    hide Range.IsSound, Range.Has, Range.Leads, At, Step;
    StepStays(r, pc);
    if (first || pc !in r.Leads()) && !At(r.code, pc).IsTerminator() { BodyEnds(r, Step(r.code, pc), false); }
  }

  /** Where a block goes, read off its last instruction: the branch target, and the next leader if it may be skipped. */
  lemma GoesByLast(r: Range, b: nat)
    requires r.IsSound() && b in r.Leads()
    ensures r.Holds(b) != []
    ensures var last := r.Holds(b)[|r.Holds(b)| - 1];
      && last.IsTerminator()
      && (!last.IsBranch() ==> r.Goes(b) == {})
      && (last.IsBranch() ==> last.extra in r.Goes(b) && last.extra in r.Leads())
      && (last.IsBranch() && !last.IsConditional() ==> r.Goes(b) == {last.extra})
      && (last.IsConditional() ==>
            && r.Leaves(b).By? && r.Goes(b) == {last.extra, After(r.code, r.Leaves(b).pc)}
            && b < After(r.code, r.Leaves(b).pc) && After(r.code, r.Leaves(b).pc) in r.Leads())
    ensures r.Goes(b) <= r.Leads()
  {
    hide Range.IsSound, Range.Has, Range.Leads, Body, ExitOf, At, Complete;
    LeaderHas(r, b);
    BodyEnds(r, b, true);
    ExitFits(r, b, true);
    match r.Leaves(b)
    case Into(next) =>
    case By(t) =>
      MarksLead(r, t);
      assert r.Goes(b) == set m | m in Marks(r.code, t);
      if At(r.code, t).IsConditional() {
        assert Marks(r.code, t) == [After(r.code, t), At(r.code, t).extra];
        assert Marks(r.code, t)[0] in Marks(r.code, t) && Marks(r.code, t)[1] in Marks(r.code, t);
      } else if At(r.code, t).IsBranch() {
        assert Marks(r.code, t) == [At(r.code, t).extra];
        assert Marks(r.code, t)[0] in Marks(r.code, t);
      }
  }

  lemma MarksLead(r: Range, t: nat)
    requires r.IsSound() && r.Has(t)
    ensures forall m | m in Marks(r.code, t) :: m in r.Leads()
    ensures t < After(r.code, t)
  {
    LeadersFit(r.code, r.start, r.stop);
    WellFormedAt(r.code, r.start, r.stop, t);
    StepFits(r.code, t, r.stop);
  }

  /** A block that may be skipped is followed at once by the block it skips to. */
  lemma SkipIsNext(r: Range, b: nat)
    requires r.IsSound() && b in r.Leads() && r.Leaves(b).By? && At(r.code, r.Leaves(b).pc).IsConditional()
    ensures b < After(r.code, r.Leaves(b).pc) < r.stop
    ensures forall l | l in r.Leads() && b < l :: After(r.code, r.Leaves(b).pc) <= l
  {
    LeadersFit(r.code, r.start, r.stop);
    ExitFits(r, b, true);
    var t := r.Leaves(b).pc;
    WellFormedAt(r.code, r.start, r.stop, t);
    StepFits(r.code, t, r.stop);
    assert Steps(r.code, t, After(r.code, t));
    forall l | l in r.Leads() && b < l
      ensures After(r.code, t) <= l
    {
      StepsBetween(r.code, r.start, t, l);
    }
  }

  // ---- Filling the blocks ----

  function AppendTo(blocks: Blocks, b: nat, i: Instruction): Blocks
    requires b in blocks
  {
    blocks[b := blocks[b].(instructions := blocks[b].instructions + [i])]
  }

  function AddReferer(blocks: Blocks, to: nat, from: nat): Blocks
    requires to in blocks
  {
    blocks[to := blocks[to].(referers := blocks[to].referers + {from})]
  }

  /** The scan has reached `next`, where another block begins: `cur` is closed and its referers recorded. */
  function Closed(blocks: Blocks, cur: nat, next: nat): Blocks
    requires cur in blocks && next in blocks
    requires blocks[cur].HasTerminator() && blocks[cur].Last().IsBranch() ==> blocks[cur].Last().extra in blocks
  {
    if blocks[cur].HasTerminator() then
      var terminator := blocks[cur].Last();
      if !terminator.IsBranch() then blocks
      else if !terminator.IsConditional() then AddReferer(blocks, terminator.extra, cur)
      else AddReferer(AddReferer(blocks, next, cur), terminator.extra, cur)
    else AddReferer(AppendTo(blocks, cur, Link(next)), next, cur)
  }

  /** The referers recorded when all blocks before `cur` are closed, and `cur` too if `also`. */
  ghost function Recorded(r: Range, cur: nat, also: bool, to: nat): set<nat> {
    set b | b in r.Leads() && (b < cur || (b == cur && also)) && to in r.Goes(b)
  }

  /** The block under work has been closed by its terminator, and the scan is in dead code. */
  ghost predicate IsDead(r: Range, done: seq<Instruction>, ptr: nat, cur: nat) {
    && r.Leaves(cur).By? && done == r.Holds(cur)
    && cur < After(r.code, r.Leaves(cur).pc) <= ptr <= r.stop
    && Hits(r.code, ptr, r.stop)
    && forall l | l in r.Leads() && l >= ptr :: Hits(r.code, ptr, l)
  }

  /** The block under work is filled up to the instruction at ptr. */
  ghost predicate IsLive(r: Range, done: seq<Instruction>, ptr: nat, cur: nat) {
    && r.Has(ptr)
    && done + Body(r.code, r.Leads(), ptr, r.stop, ptr == cur) == r.Holds(cur)
    && ExitOf(r.code, r.Leads(), ptr, r.stop, ptr == cur) == r.Leaves(cur)
    && (done != [] ==> !done[|done| - 1].IsTerminator())
  }

  /** The last instruction of the range is a branch of the block under work, which then counts as closed. */
  ghost predicate EndsHere(r: Range, ptr: nat, cur: nat, dead: bool) {
    dead && ptr >= r.stop && r.Leaves(cur).By? && After(r.code, r.Leaves(cur).pc) >= r.stop
  }

  ghost predicate Filling(r: Range, blocks: Blocks, ptr: nat, cur: nat, dead: bool) {
    && r.IsSound() && blocks.Keys == r.Leads() && cur in r.Leads() && cur <= ptr
    && (forall l | l in r.Leads() :: l <= cur || l >= ptr)
    && (forall l | l in r.Leads() && l < cur :: blocks[l].instructions == r.Holds(l))
    && (forall l | l in r.Leads() && l > cur :: blocks[l].instructions == [])
    && (if dead then IsDead(r, blocks[cur].instructions, ptr, cur) else IsLive(r, blocks[cur].instructions, ptr, cur))
    && (forall l | l in r.Leads() :: blocks[l].referers == Recorded(r, cur, EndsHere(r, ptr, cur, dead), l))
  }

  /** Before the scan: all blocks are empty. */
  lemma FillStarts(r: Range)
    requires r.IsSound()
    ensures Filling(r, map l | l in r.Leads() :: Block([], {}), r.start, r.start, false)
  {
    LeadersFit(r.code, r.start, r.stop);
    assert forall b | b in r.Leads() :: r.start <= b;
  }

  /** What closing a block does: its instructions are complete and it is a referer wherever it goes. */
  ghost predicate IsClosed(r: Range, blocks: Blocks, now: Blocks, cur: nat) {
    && blocks.Keys == now.Keys == r.Leads()
    && forall l | l in r.Leads() ::
         && now[l].instructions == (if l == cur then r.Holds(cur) else blocks[l].instructions)
         && now[l].referers == if l in r.Goes(cur) then blocks[l].referers + {cur} else blocks[l].referers
  }

  /** A block that ended with a terminator goes to its targets, and to `next` if the branch may be skipped. */
  lemma ClosesDead(r: Range, blocks: Blocks, ptr: nat, cur: nat)
    requires r.IsSound() && blocks.Keys == r.Leads() && cur in r.Leads() && ptr in r.Leads() && cur < ptr
    requires IsDead(r, blocks[cur].instructions, ptr, cur)
    requires forall l | l in r.Leads() :: l <= cur || l >= ptr
    ensures blocks[cur].HasTerminator() && (blocks[cur].Last().IsBranch() ==> blocks[cur].Last().extra in blocks)
    ensures IsClosed(r, blocks, Closed(blocks, cur, ptr), cur)
  {
    hide Sound, Distinct, LeaderSet, Boundary, Body, ExitOf, Successors;
    GoesByLast(r, cur);
    if r.Holds(cur)[|r.Holds(cur)| - 1].IsConditional() {
      LeaderHas(r, cur);
      BodyEnds(r, cur, true);
      SkipIsNext(r, cur);
    }
  }

  /** A block that ran into `next` is linked to it. */
  lemma ClosesLive(r: Range, blocks: Blocks, ptr: nat, cur: nat)
    requires r.IsSound() && blocks.Keys == r.Leads() && cur in r.Leads() && ptr in r.Leads() && cur < ptr
    requires IsLive(r, blocks[cur].instructions, ptr, cur)
    ensures !blocks[cur].HasTerminator()
    ensures IsClosed(r, blocks, Closed(blocks, cur, ptr), cur)
  {
    assert Body(r.code, r.Leads(), ptr, r.stop, false) == [Link(ptr)];
    assert r.Goes(cur) == {ptr};
  }

  /** Closing a block that ended before `next`. */
  lemma FillEnters(r: Range, blocks: Blocks, ptr: nat, cur: nat, dead: bool)
    requires Filling(r, blocks, ptr, cur, dead) && ptr in r.Leads() && ptr != cur
    ensures cur in blocks && ptr in blocks
    ensures blocks[cur].HasTerminator() && blocks[cur].Last().IsBranch() ==> blocks[cur].Last().extra in blocks
    ensures Filling(r, Closed(blocks, cur, ptr), ptr, ptr, false)
  {
    hide IsDead, IsLive, Closed;
    if dead { ClosesDead(r, blocks, ptr, cur); } else { ClosesLive(r, blocks, ptr, cur); }
    FillMovesOn(r, blocks, Closed(blocks, cur, ptr), ptr, cur, dead);
  }

  lemma FillMovesOn(r: Range, blocks: Blocks, now: Blocks, ptr: nat, cur: nat, dead: bool)
    requires Filling(r, blocks, ptr, cur, dead) && ptr in r.Leads() && ptr != cur && IsClosed(r, blocks, now, cur)
    ensures Filling(r, now, ptr, ptr, false)
  {
    hide IsDead, Sound, Distinct, LeaderSet, Boundary, Body, ExitOf, Successors;
    LeaderHas(r, ptr);
    assert !EndsHere(r, ptr, cur, dead);
    forall l | l in r.Leads()
      ensures now[l].referers == Recorded(r, ptr, false, l)
    {
    }
  }

  /** The instruction the scan stands at, when it is not in dead code. */
  lemma LiveAt(r: Range, blocks: Blocks, ptr: nat, cur: nat)
    requires Filling(r, blocks, ptr, cur, false)
    ensures WellFormed(r.code, ptr, r.stop) && r.Has(ptr) && cur in blocks
    ensures Complete(r.code, ptr) && ptr < After(r.code, ptr) && ptr < Step(r.code, ptr) <= r.stop
    ensures At(r.code, ptr).IsTerminator() ==> Step(r.code, ptr) == After(r.code, ptr)
    ensures !At(r.code, ptr).IsTerminator() ==> r.Has(Step(r.code, ptr))
    ensures forall l | l in r.Leads() && l > ptr :: l >= Step(r.code, ptr)
  {
    hide Body, ExitOf, Recorded, EndsHere;
    WellFormedAt(r.code, r.start, r.stop, ptr);
    StepFits(r.code, ptr, r.stop);
    assert Steps(r.code, ptr, Step(r.code, ptr));
    StepsTransitive(r.code, r.start, ptr, Step(r.code, ptr));
    LeadersFit(r.code, r.start, r.stop);
    forall l | l in r.Leads() && l > ptr
      ensures l >= Step(r.code, ptr)
    {
      StepsBetween(r.code, r.start, ptr, l);
    }
  }

  lemma NotHere(r: Range, ptr: nat, cur: nat)
    ensures !EndsHere(r, ptr, cur, false)
  {
  }

  /** A block grows by an instruction that does not end it. */
  lemma FillGrows(r: Range, blocks: Blocks, ptr: nat, cur: nat)
    requires Filling(r, blocks, ptr, cur, false) && (ptr == cur || ptr !in r.Leads())
    requires cur in blocks && !At(r.code, ptr).IsTerminator()
    ensures Filling(r, AppendTo(blocks, cur, At(r.code, ptr)), Step(r.code, ptr), cur, false)
  {
    hide Sound, Distinct, LeaderSet, Boundary, Steps, Successors, At, Step, Complete, WellFormed, Recorded, EndsHere,
         Range.Goes;
    LiveAt(r, blocks, ptr, cur);
    NotHere(r, ptr, cur);
    NotHere(r, Step(r.code, ptr), cur);
    var next := Step(r.code, ptr);
    var done := blocks[cur].instructions;
    var rest := Body(r.code, r.Leads(), next, r.stop, false);
    assert done + ([At(r.code, ptr)] + rest) == (done + [At(r.code, ptr)]) + rest;
  }

  /** From a terminator on the scan is in dead code, where it still passes every later leader. */
  lemma DeadAfter(r: Range, ptr: nat)
    requires r.IsSound() && r.Has(ptr) && WellFormed(r.code, ptr, r.stop) && At(r.code, ptr).IsTerminator()
    ensures After(r.code, ptr) <= r.stop && Hits(r.code, After(r.code, ptr), r.stop)
    ensures forall l | l in r.Leads() && l >= After(r.code, ptr) :: Hits(r.code, After(r.code, ptr), l)
  {
    LeadersFit(r.code, r.start, r.stop);
    var next := After(r.code, ptr);
    StepFits(r.code, ptr, r.stop);
    if next < r.stop {
      HitsEnd(r.code, next, r.stop);
      forall l | l in r.Leads() && l >= next
        ensures Hits(r.code, next, l)
      {
        StepsBetween(r.code, r.start, ptr, l);
        StepsHits(r.code, next, r.stop, l);
      }
    }
  }

  /** The block's terminator, with the referer recorded at once if it is the last instruction of all. */
  function Terminated(r: Range, blocks: Blocks, ptr: nat, cur: nat): Blocks
    requires cur in blocks
  {
    var now := AppendTo(blocks, cur, At(r.code, ptr));
    if After(r.code, ptr) >= r.stop && At(r.code, ptr).IsBranch() && At(r.code, ptr).extra in now then
      AddReferer(now, At(r.code, ptr).extra, cur)
    else now
  }

  /** The terminator completes the block. */
  lemma TerminatesBlock(r: Range, blocks: Blocks, ptr: nat, cur: nat)
    requires Filling(r, blocks, ptr, cur, false) && (ptr == cur || ptr !in r.Leads())
    requires At(r.code, ptr).IsTerminator()
    ensures cur in blocks && cur < After(r.code, ptr) <= r.stop
    ensures r.Leaves(cur) == By(ptr) && r.Holds(cur) == blocks[cur].instructions + [At(r.code, ptr)]
    ensures IsDead(r, r.Holds(cur), After(r.code, ptr), cur)
    ensures forall l | l in r.Leads() :: l <= cur || l >= After(r.code, ptr)
    ensures At(r.code, ptr).IsBranch() ==> At(r.code, ptr).extra in r.Leads()
    ensures At(r.code, ptr).IsBranch() && After(r.code, ptr) >= r.stop ==> r.Goes(cur) == {At(r.code, ptr).extra}
    ensures !At(r.code, ptr).IsBranch() ==> r.Goes(cur) == {}
  {
    hide Sound, Distinct, LeaderSet, Boundary, Steps, Hits, Successors, Recorded, EndsHere;
    LiveAt(r, blocks, ptr, cur);
    DeadAfter(r, ptr);
    GoesByLast(r, cur);
    StepFits(r.code, ptr, r.stop);
  }

  lemma FillTerminates(r: Range, blocks: Blocks, ptr: nat, cur: nat)
    requires Filling(r, blocks, ptr, cur, false) && (ptr == cur || ptr !in r.Leads())
    requires cur in blocks && At(r.code, ptr).IsTerminator()
    ensures At(r.code, ptr).IsBranch() ==> At(r.code, ptr).extra in r.Leads()
    ensures Filling(r, Terminated(r, blocks, ptr, cur), After(r.code, ptr), cur, true)
  {
    hide Sound, Distinct, LeaderSet, Boundary, Steps, Hits, Successors, IsLive, IsDead, Body, ExitOf, Counted,
         Terminated, Recorded;
    TerminatesBlock(r, blocks, ptr, cur);
    TerminatorRecorded(r, blocks, ptr, cur, cur);
    var also := EndsHere(r, After(r.code, ptr), cur, true);
    assert also == (After(r.code, ptr) >= r.stop);
    forall l | l in r.Leads()
      ensures Terminated(r, blocks, ptr, cur)[l].referers == Recorded(r, cur, also, l)
      ensures Terminated(r, blocks, ptr, cur)[l].instructions ==
        if l == cur then blocks[l].instructions + [At(r.code, ptr)] else blocks[l].instructions
    {
      TerminatorRecorded(r, blocks, ptr, cur, l);
    }
  }

  lemma TerminatorRecorded(r: Range, blocks: Blocks, ptr: nat, cur: nat, l: nat)
    requires blocks.Keys == r.Leads() && cur in r.Leads() && l in r.Leads()
    requires blocks[l].referers == Recorded(r, cur, false, l)
    requires At(r.code, ptr).IsBranch() ==> At(r.code, ptr).extra in r.Leads()
    requires At(r.code, ptr).IsBranch() && After(r.code, ptr) >= r.stop ==> r.Goes(cur) == {At(r.code, ptr).extra}
    requires !At(r.code, ptr).IsBranch() ==> r.Goes(cur) == {}
    ensures Terminated(r, blocks, ptr, cur)[l].referers == Recorded(r, cur, After(r.code, ptr) >= r.stop, l)
    ensures Terminated(r, blocks, ptr, cur)[l].instructions ==
      if l == cur then blocks[l].instructions + [At(r.code, ptr)] else blocks[l].instructions
    ensures Terminated(r, blocks, ptr, cur).Keys == r.Leads()
  {
    hide Range.Goes, LeaderSet;
    assert Recorded(r, cur, true, l) == Recorded(r, cur, false, l) + if l in r.Goes(cur) then {cur} else {};
  }

  /** An instruction of dead code is passed over. */
  lemma FillSkips(r: Range, blocks: Blocks, ptr: nat, cur: nat)
    requires Filling(r, blocks, ptr, cur, true) && ptr !in r.Leads() && ptr < r.stop
    ensures Complete(r.code, ptr) && ptr < After(r.code, ptr) <= r.stop
    ensures Filling(r, blocks, After(r.code, ptr), cur, true)
  {
    hide Sound, Distinct, LeaderSet, Boundary, Steps, Body, ExitOf, Successors, Recorded;
    assert Hits(r.code, ptr, r.stop);
    forall l | l in r.Leads()
      ensures l <= cur || l >= After(r.code, ptr)
    {
      if l > cur { assert Hits(r.code, ptr, l); }
    }
  }

  /** A block whose way out is recorded: another block follows it, or its terminator is the last instruction. */
  ghost predicate Counted(r: Range, b: nat) {
    (exists l :: l in r.Leads() && l > b) || (r.Leaves(b).By? && After(r.code, r.Leaves(b).pc) >= r.stop)
  }

  /** All blocks are filled and linked. */
  ghost predicate Filled(r: Range, blocks: Blocks) {
    && blocks.Keys == r.Leads()
    && forall l | l in r.Leads() ::
         && blocks[l].instructions == r.Holds(l)
         && blocks[l].referers == set b | b in r.Leads() && l in r.Goes(b) && Counted(r, b)
  }

  lemma FillEnds(r: Range, blocks: Blocks, ptr: nat, cur: nat, dead: bool)
    requires Filling(r, blocks, ptr, cur, dead) && ptr >= r.stop
    ensures Filled(r, blocks)
  {
    hide Sound, Distinct, LeaderSet, Boundary, Steps, Hits, Body, ExitOf, Successors;
    if !dead { LiveAt(r, blocks, ptr, cur); }
    forall l | l in r.Leads()
      ensures l <= cur
    {
      LeaderHas(r, l);
    }
    forall l | l in r.Leads()
      ensures blocks[l].referers == set b | b in r.Leads() && l in r.Goes(b) && Counted(r, b)
    {
      forall b | b in r.Leads()
        ensures Counted(r, b) <==> b < cur || EndsHere(r, ptr, cur, dead)
      {
        if b < cur { assert cur in r.Leads() && cur > b; }
      }
    }
  }

  /** What the scan knows without looking further: the leaders are the keys, and the block under work is one of them. */
  lemma FillBlocks(r: Range, blocks: Blocks, ptr: nat, cur: nat, dead: bool)
    requires Filling(r, blocks, ptr, cur, dead)
    ensures blocks.Keys == r.Leads() && cur in blocks && cur <= ptr && r.start in blocks
  {
    LeaderHas(r, cur);
  }

  /** The scan is never dead at the start. */
  lemma FillStartLive(r: Range, blocks: Blocks, ptr: nat, cur: nat, dead: bool)
    requires Filling(r, blocks, ptr, cur, dead)
    ensures ptr == r.start ==> !dead && cur == ptr
  {
    LeaderHas(r, cur);
  }
}
