/** The parser of bytecodes into basic blocks. */
module ParsedBytecodes {
  import opened Instructions
  import opened ControlFlow
  import opened BasicBlocks
  import opened Pruning

  /** The nested blocks of a range in the order in which they are registered: a block after those inside it. */
  function NestedRanges(code: Code, pc: nat, stop: nat): seq<(nat, nat)>
    decreases if pc < stop then stop - pc else 0
  {
    if !(pc < stop && pc < Step(code, pc) <= stop) then []
    else if At(code, pc).opcode == PUSH_BLOCK && pc < After(code, pc) then
      NestedRanges(code, After(code, pc), At(code, pc).extra) + [(After(code, pc), At(code, pc).extra)]
      + NestedRanges(code, Step(code, pc), stop)
    else NestedRanges(code, Step(code, pc), stop)
  }

  /** Ranges between two offsets, each after those that end before it. */
  ghost predicate ByEnd(ranges: seq<(nat, nat)>, from: nat, to: nat) {
    && (forall i | 0 <= i < |ranges| :: from < ranges[i].0 < ranges[i].1 < to)
    && forall i, j | 0 <= i < j < |ranges| :: ranges[i].1 < ranges[j].1
  }

  /** A block comes after those that end before it: after all blocks inside it, and before those behind it. */
  lemma {:induction false} NestedByEnd(code: Code, pc: nat, stop: nat)
    requires WellFormed(code, pc, stop)
    ensures ByEnd(NestedRanges(code, pc, stop), pc, stop)
    decreases stop - pc
  {
    hide At, After, Step, ByEnd;
    StepFits(code, pc, stop);
    var next, later := Step(code, pc), NestedRanges(code, Step(code, pc), stop);
    if next < stop { NestedByEnd(code, next, stop); } else { NoneByEnd(next, stop); }
    if At(code, pc).opcode == PUSH_BLOCK {
      BlockFits(code, pc, stop);
      var from, to := After(code, pc), At(code, pc).extra;
      NestedByEnd(code, from, to);
      JoinedByEnd(NestedRanges(code, from, to), from, to, later, pc, stop);
      assert NestedRanges(code, pc, stop) == NestedRanges(code, from, to) + [(from, to)] + later;
    } else {
      EarlierStart(later, next, pc, stop);
      assert NestedRanges(code, pc, stop) == later;
    }
  }

  lemma NoneByEnd(from: nat, to: nat)
    ensures ByEnd([], from, to)
  {
  }

  lemma EarlierStart(ranges: seq<(nat, nat)>, from: nat, earlier: nat, to: nat)
    requires ByEnd(ranges, from, to) && earlier <= from
    ensures ByEnd(ranges, earlier, to)
  {
  }

  lemma JoinedByEnd(inner: seq<(nat, nat)>, from: nat, to: nat, later: seq<(nat, nat)>, pc: nat, stop: nat)
    requires ByEnd(inner, from, to) && ByEnd(later, to, stop) && pc < from < to < stop
    ensures ByEnd(inner + [(from, to)] + later, pc, stop)
  {
  }

  lemma BlockFits(code: Code, pc: nat, stop: nat)
    requires WellFormed(code, pc, stop) && At(code, pc).opcode == PUSH_BLOCK
    ensures After(code, pc) < At(code, pc).extra < stop && WellFormed(code, After(code, pc), At(code, pc).extra)
    ensures Step(code, pc) == At(code, pc).extra
  {
  }

  /** Every pushBlock instruction of the range gives a block, with all blocks inside it. */
  lemma {:induction false} NestedHas(code: Code, pc: nat, stop: nat, at: nat)
    requires WellFormed(code, pc, stop) && Steps(code, pc, at) && at < stop && At(code, at).opcode == 12
    ensures (After(code, at), At(code, at).extra) in NestedRanges(code, pc, stop)
    ensures forall n | n in NestedRanges(code, After(code, at), At(code, at).extra) ::
              n in NestedRanges(code, pc, stop)
    decreases if pc < at then at - pc else 0
  {
    StepFits(code, pc, stop);
    if pc != at { NestedHas(code, Step(code, pc), stop, at); }
  }

  /** In one of these ranges the parser comes to erase a block whose target it has erased. */
  ghost predicate AnyStrands(code: Code, ranges: seq<(nat, nat)>) {
    exists n :: n in ranges && ParserStrands(Range(code, n.0, n.1), n.1)
  }

  lemma StrandsOfBoth(code: Code, a: seq<(nat, nat)>, b: seq<(nat, nat)>)
    ensures AnyStrands(code, a + b) <==> AnyStrands(code, a) || AnyStrands(code, b)
  {
    hide ParserStrands;
  }

  lemma StrandsOfOne(code: Code, range: (nat, nat))
    ensures AnyStrands(code, [range]) <==> ParserStrands(Range(code, range.0, range.1), range.1)
  {
    hide ParserStrands;
  }

  lemma StrandsOfNone(code: Code)
    ensures !AnyStrands(code, [])
  {
  }

  /** The part of the parser's list that is left, in the list's order. */
  ghost predicate Subsequent(order: seq<nat>, rest: seq<nat>) {
    && (forall i, j | 0 <= i < j < |rest| :: Place(order, rest[i]) < Place(order, rest[j]))
    && forall i | 0 <= i < |rest| :: Place(order, rest[i]) < |order|
  }

  lemma WholeIsSubsequent(order: seq<nat>)
    requires Distinct(order)
    ensures Subsequent(order, order)
  {
    forall i | 0 <= i < |order|
      ensures Place(order, order[i]) == i
    {
      PlaceAt(order, i);
    }
  }

  lemma SubsequentWithout(order: seq<nat>, rest: seq<nat>, i: nat)
    requires Subsequent(order, rest) && i < |rest|
    ensures Subsequent(order, Without(rest, i))
  {
    hide Place;
  }

  /** The parser stands before the i-th block left: it has gone past place p of the list in pass n. */
  ghost predicate StandsAt(r: Range, pass: map<nat, nat>, rest: seq<nat>, n: nat, i: nat, p: nat) {
    && i <= |rest| && OnSchedule(r, pass, Members(rest), n, p)
    && (forall j | 0 <= j < i :: Place(r.Order(), rest[j]) < p)
    && forall j | i <= j < |rest| :: Place(r.Order(), rest[j]) >= p
  }

  /** Whatever comes between the place gone past and the next block left has gone. */
  lemma NextPlace(r: Range, pass: map<nat, nat>, rest: seq<nat>, n: nat, i: nat, p: nat)
    requires StandsAt(r, pass, rest, n, i, p) && Subsequent(r.Order(), rest) && i < |rest|
    ensures OnSchedule(r, pass, Members(rest), n, Place(r.Order(), rest[i]))
  {
    hide Place, Range.Order;
    var q := Place(r.Order(), rest[i]);
    forall l | l in pass
      ensures l !in Members(rest) <==> Sooner(r, pass, l, n, q)
    {
      if l in Members(rest) {
        var j :| 0 <= j < |rest| && rest[j] == l;
      }
    }
  }

  /** The block stays: its pass is yet to come. */
  lemma StandsAfter(r: Range, pass: map<nat, nat>, rest: seq<nat>, n: nat, i: nat, p: nat)
    requires StandsAt(r, pass, rest, n, i, p) && Subsequent(r.Order(), rest) && i < |rest|
    requires !(rest[i] in pass && pass[rest[i]] == n)
    ensures StandsAt(r, pass, rest, n, i + 1, Place(r.Order(), rest[i]) + 1)
  {
    hide Place, Range.Order;
    NextPlace(r, pass, rest, n, i, p);
    OnlyOneThere(r, pass, rest, n, i);
  }

  /** Nothing but the i-th block has its place. */
  lemma OnlyOneThere(r: Range, pass: map<nat, nat>, rest: seq<nat>, n: nat, i: nat)
    requires Subsequent(r.Order(), rest) && i < |rest|
    requires OnSchedule(r, pass, Members(rest), n, Place(r.Order(), rest[i]))
    ensures var q := Place(r.Order(), rest[i]);
      forall l | l in pass && l != rest[i] :: Sooner(r, pass, l, n, q) <==> Sooner(r, pass, l, n, q + 1)
  {
    hide Place, Range.Order;
    var q := Place(r.Order(), rest[i]);
    forall l | l in pass && l != rest[i]
      ensures Sooner(r, pass, l, n, q) <==> Sooner(r, pass, l, n, q + 1)
    {
      if l in Members(rest) {
        var j :| 0 <= j < |rest| && rest[j] == l;
      }
    }
  }

  /** The block goes, in the pass of the schedule. */
  lemma StandsBehind(r: Range, pass: map<nat, nat>, rest: seq<nat>, n: nat, i: nat, p: nat)
    requires StandsAt(r, pass, rest, n, i, p) && Subsequent(r.Order(), rest) && Distinct(rest) && i < |rest|
    requires rest[i] in pass && pass[rest[i]] == n
    ensures StandsAt(r, pass, Without(rest, i), n, i, Place(r.Order(), rest[i]) + 1)
  {
    hide Place, Range.Order, Members;
    NextPlace(r, pass, rest, n, i, p);
    OnlyOneThere(r, pass, rest, n, i);
    ListWithout(rest, i);
  }

  /** At the end of the list all blocks of this pass have gone. */
  lemma StandsAgain(r: Range, pass: map<nat, nat>, rest: seq<nat>, n: nat, p: nat)
    requires StandsAt(r, pass, rest, n, |rest|, p)
    ensures StandsAt(r, pass, rest, n + 1, 0, 0)
  {
    hide Place, Range.Order;
    forall l | l in pass
      ensures l !in Members(rest) <==> Sooner(r, pass, l, n + 1, 0)
    {
      if l in Members(rest) {
        var j :| 0 <= j < |rest| && rest[j] == l;
      }
    }
  }

  function Members(order: seq<nat>): set<nat> {
    set l | l in order
  }

  function Without(order: seq<nat>, i: nat): seq<nat>
    requires i < |order|
  {
    order[..i] + order[i + 1..]
  }

  lemma ListWithout(order: seq<nat>, i: nat)
    requires Distinct(order) && i < |order|
    ensures Distinct(Without(order, i)) && Members(Without(order, i)) == Members(order) - {order[i]}
  {
    var rest := Without(order, i);
    forall l | l in order && l != order[i]
      ensures l in rest
    {
      var j :| 0 <= j < |order| && order[j] == l;
      assert rest[if j < i then j else j - 1] == l;
    }
    forall l | l in rest
      ensures l in order && l != order[i]
    {
      var j :| 0 <= j < |rest| && rest[j] == l;
      assert order[if j < i then j else j + 1] == l;
    }
  }

  lemma ListedOne(order: seq<nat>, a: nat)
    ensures ListedAll(order, [a]) == Listed(order, a)
  {
    assert [a][1..] == [] && ListedAll(Listed(order, a), []) == Listed(order, a);
  }

  lemma ListedTwo(order: seq<nat>, a: nat, b: nat)
    ensures ListedAll(order, [a, b]) == Listed(Listed(order, a), b)
  {
    assert [a, b][1..] == [b];
    ListedOne(Listed(order, a), b);
  }

  /** The parser is before the i-th block left, in its n-th pass, and has found every target so far. */
  ghost predicate Wiping(r: Range, stopOffset: nat, pass: map<nat, nat>, rest: seq<nat>, blocks: Blocks, n: nat, i: nat,
                         p: nat)
  {
    && Pruned(r, stopOffset, blocks) && IsSchedule(r, stopOffset, pass)
    && Distinct(rest) && Members(rest) == blocks.Keys && Subsequent(r.Order(), rest)
    && StandsAt(r, pass, rest, n, i, p)
    && forall b, t | IsStranded(r, pass, b, t) :: b in blocks
  }

  lemma WipingStarts(r: Range, stopOffset: nat, pass: map<nat, nat>, blocks: Blocks)
    requires Pruned(r, stopOffset, blocks) && IsSchedule(r, stopOffset, pass)
    requires Distinct(r.Order()) && Members(r.Order()) == blocks.Keys
    ensures Wiping(r, stopOffset, pass, r.Order(), blocks, 0, 0, 0)
  {
    hide Pruned, Timed, Supported, Place, Leaders;
    WholeIsSubsequent(r.Order());
    assert r.Leads() == blocks.Keys;
  }

  lemma WipingStays(r: Range, stopOffset: nat, pass: map<nat, nat>, rest: seq<nat>, blocks: Blocks, n: nat, i: nat,
                    p: nat)
    requires Wiping(r, stopOffset, pass, rest, blocks, n, i, p) && i < |rest|
    requires rest[i] in blocks && (rest[i] == r.start || blocks[rest[i]].referers != {})
    ensures Wiping(r, stopOffset, pass, rest, blocks, n, i + 1, Place(r.Order(), rest[i]) + 1)
  {
    hide Pruned, Timed, Supported, Place, Range.Order, IsStranded, StandsAt, Subsequent, OnSchedule;
    SoundOf(r, stopOffset, blocks);
    NextPlace(r, pass, rest, n, i, p);
    if rest[i] != r.start { TurnComes(r, stopOffset, blocks, pass, n, rest[i]); }
    else { StartStays(r, stopOffset, pass); }
    StandsAfter(r, pass, rest, n, i, p);
  }

  lemma WipingErases(r: Range, stopOffset: nat, pass: map<nat, nat>, rest: seq<nat>, blocks: Blocks, n: nat, i: nat,
                     p: nat)
    requires Wiping(r, stopOffset, pass, rest, blocks, n, i, p) && i < |rest|
    requires rest[i] in blocks && rest[i] != r.start && blocks[rest[i]].referers == {}
    ensures Pruned(r, stopOffset, blocks) && blocks[rest[i]].HasTerminator()
    ensures Misses(blocks, rest[i]) ==> ParserStrands(r, stopOffset)
    ensures !Misses(blocks, rest[i]) ==>
      Wiping(r, stopOffset, pass, Without(rest, i), Erased(blocks, rest[i], stopOffset), n, i,
             Place(r.Order(), rest[i]) + 1)
  {
    hide Pruned, IsSchedule, Supported, Place, Range.Order, IsStranded, StandsAt, Subsequent, OnSchedule, Misses,
         Erased, Members, Distinct;
    NextPlace(r, pass, rest, n, i, p);
    PruneStep(r, stopOffset, blocks, rest[i]);
    TurnComes(r, stopOffset, blocks, pass, n, rest[i]);
    StrandedIffMissed(r, stopOffset, blocks, pass, n, rest[i]);
    StandsBehind(r, pass, rest, n, i, p);
    SubsequentWithout(r.Order(), rest, i);
    ListWithout(rest, i);
  }

  lemma WipingAgain(r: Range, stopOffset: nat, pass: map<nat, nat>, rest: seq<nat>, blocks: Blocks, n: nat, p: nat)
    requires Wiping(r, stopOffset, pass, rest, blocks, n, |rest|, p)
    ensures Wiping(r, stopOffset, pass, rest, blocks, n + 1, 0, 0)
  {
    hide Pruned, IsSchedule, Place, Range.Order, IsStranded, StandsAt, Subsequent;
    StandsAgain(r, pass, rest, n, p);
  }

  lemma WipingEnds(r: Range, stopOffset: nat, pass: map<nat, nat>, rest: seq<nat>, blocks: Blocks, n: nat)
    requires Wiping(r, stopOffset, pass, rest, blocks, n, 0, 0) && Wiped(r, blocks)
    ensures Pruned(r, stopOffset, blocks) && IsLargest(r, stopOffset, blocks.Keys) && !ParserStrands(r, stopOffset)
  {
    hide Pruned, IsSchedule, Place, Range.Order, IsStranded, StandsAt, Subsequent, Wiped, IsLargest, ParserStrands;
    WipedIsLargest(r, stopOffset, blocks);
    NoneStrands(r, stopOffset, blocks, pass);
  }

  class ParsedMethod {
    var parsedBlocks: seq<ParsedBytecode>

    constructor ()
      ensures parsedBlocks == []
    {
      parsedBlocks := [];
    }
  }

  class ParsedBytecode {
    const code: Code
    const startOffset: nat
    const stopOffset: nat
    /** The blocks in the order of the source's list, named by their offsets. */
    var basicBlocks: seq<nat>
    var offsetToBlock: Blocks

    constructor (code: Code, startOffset: nat, stopOffset: nat)
      ensures this.code == code && this.startOffset == startOffset && this.stopOffset == stopOffset
      ensures basicBlocks == [] && offsetToBlock == map[]
    {
      this.code, this.startOffset, this.stopOffset := code, startOffset, stopOffset;
      basicBlocks, offsetToBlock := [], map[];
    }

    function Scope(): Range {
      Range(code, startOffset, if stopOffset != 0 then stopOffset else |code|)
    }

    /** The list and the map hold the same blocks, each once. */
    ghost predicate Consistent()
      reads this
    {
      Distinct(basicBlocks) && Members(basicBlocks) == offsetToBlock.Keys
    }

    /** The blocks found so far, still empty. */
    ghost predicate Empty()
      reads this
    {
      Distinct(basicBlocks) && offsetToBlock == map l | l in basicBlocks :: Block([], {})
    }

    lemma StartsEmpty()
      requires basicBlocks == [] && offsetToBlock == map[]
      ensures Empty()
    {
    }

    // ---- Phase 1: branches and nested blocks ----

    method CreateBasicBlock(offset: nat)
      requires Empty()
      modifies `basicBlocks, `offsetToBlock
      ensures Empty() && basicBlocks == Listed(old(basicBlocks), offset)
    {
      if offset in offsetToBlock { return; }
      offsetToBlock := offsetToBlock[offset := Block([], {})];
      basicBlocks := basicBlocks + [offset];
    }

    /** The blocks that a branch makes begin: first the one it may skip to, then its target. */
    method CreateBranchBlocks(instruction: Instruction, next: nat)
      requires Empty() && instruction.opcode == DO_SPECIAL
      modifies `basicBlocks, `offsetToBlock
      ensures Empty()
      ensures basicBlocks == ListedAll(old(basicBlocks),
        if instruction.IsConditional() then [next, instruction.extra]
        else if instruction.IsBranch() then [instruction.extra]
        else [])
    {
      hide Empty;
      if instruction.IsConditional() {
        ListedTwo(basicBlocks, next, instruction.extra);
        CreateBasicBlock(next);
        CreateBasicBlock(instruction.extra);
      } else if instruction.IsBranch() {
        ListedOne(basicBlocks, instruction.extra);
        CreateBasicBlock(instruction.extra);
      }
    }

    // ---- Phase 2: filling ----

    method UpdateReferences(current: nat, next: nat)
      requires current in offsetToBlock && next in offsetToBlock
      requires offsetToBlock[current].HasTerminator() && offsetToBlock[current].Last().IsBranch() ==>
        offsetToBlock[current].Last().extra in offsetToBlock
      modifies `offsetToBlock
      ensures offsetToBlock == Closed(old(offsetToBlock), current, next)
    {
      if offsetToBlock[current].HasTerminator() {
        var terminator := offsetToBlock[current].Last();
        if terminator.IsBranch() {
          if terminator.argument == BRANCH {
            offsetToBlock := AddReferer(offsetToBlock, terminator.extra, current);
          } else {
            offsetToBlock := AddReferer(offsetToBlock, next, current);
            offsetToBlock := AddReferer(offsetToBlock, terminator.extra, current);
          }
        }
      } else {
        offsetToBlock := AppendTo(offsetToBlock, current, Link(next));
        offsetToBlock := AddReferer(offsetToBlock, next, current);
      }
    }

    /** The start block is made if no branch leads to it, and put in front. */
    method MakeStart()
      requires Scope().IsSound()
      requires basicBlocks == Found(code, startOffset, Scope().stop, [])
      requires offsetToBlock == map l | l in basicBlocks :: Block([], {})
      modifies `basicBlocks, `offsetToBlock
      ensures basicBlocks == Leaders(code, startOffset, Scope().stop) && Consistent()
      ensures Filling(Scope(), offsetToBlock, startOffset, startOffset, false)
    {
      LeadersFit(code, startOffset, Scope().stop);
      FillStarts(Scope());
      if startOffset !in offsetToBlock {
        offsetToBlock := offsetToBlock[startOffset := Block([], {})];
        basicBlocks := [startOffset] + basicBlocks;
      }
      assert offsetToBlock == map l | l in Scope().Leads() :: Block([], {});
    }

    /** Appends the next instruction to the current block and steps over the body of a nested block. */
    method TakeInstruction(decoder: InstructionDecoder, current: nat) returns (terminator: bool)
      requires decoder.code == code && Filling(Scope(), offsetToBlock, decoder.bytePointer, current, false)
      requires decoder.bytePointer == current || decoder.bytePointer !in offsetToBlock
      modifies `offsetToBlock, decoder
      ensures offsetToBlock.Keys == old(offsetToBlock.Keys) && decoder.bytePointer > old(decoder.bytePointer)
      ensures Filling(Scope(), offsetToBlock, decoder.bytePointer, current, terminator)
    {
      hide Filling, Range.IsSound, Range.Leads, Complete, NextOf;
      ghost var r, ptr, blocks := Scope(), decoder.bytePointer, offsetToBlock;
      FillBlocks(r, blocks, ptr, current, false);
      LiveAt(r, blocks, ptr, current);
      if At(code, ptr).IsTerminator() { FillTerminates(r, blocks, ptr, current); }
      else { FillGrows(r, blocks, ptr, current); }

      var instruction := decoder.DecodeAndShiftPointer();
      offsetToBlock := AppendTo(offsetToBlock, current, instruction);
      terminator := false;
      if instruction.opcode == PUSH_BLOCK {
        decoder.bytePointer := instruction.extra;
        return;
      }
      if instruction.IsTerminator() { terminator := true; }
      if decoder.bytePointer >= Scope().stop && instruction.IsBranch() {
        offsetToBlock := AddReferer(offsetToBlock, instruction.extra, current);
      }
    }

    /** When the scan comes to where another block begins, it goes on with that block. */
    method SwitchBlock(ptr: nat, current: nat, terminatorEncoded: bool) returns (now: nat, terminator: bool)
      requires Filling(Scope(), offsetToBlock, ptr, current, terminatorEncoded) && ptr < Scope().stop
      requires ptr == current ==> current == startOffset
      modifies `offsetToBlock
      ensures offsetToBlock.Keys == old(offsetToBlock.Keys)
      ensures Filling(Scope(), offsetToBlock, ptr, now, terminator)
      ensures ptr == now || ptr !in offsetToBlock
      ensures terminator ==> ptr !in offsetToBlock
    {
      hide Filling, Range.IsSound, Range.Leads, Closed;
      FillBlocks(Scope(), offsetToBlock, ptr, current, terminatorEncoded);
      now, terminator := current, terminatorEncoded;
      if ptr != startOffset && ptr in offsetToBlock {
        FillEnters(Scope(), offsetToBlock, ptr, current, terminatorEncoded);
        UpdateReferences(current, ptr);
        FillBlocks(Scope(), offsetToBlock, ptr, ptr, false);
        now, terminator := ptr, false;
      }
      FillStartLive(Scope(), offsetToBlock, ptr, now, terminator);
    }

    method Populate()
      requires Scope().IsSound()
      requires basicBlocks == Found(code, startOffset, Scope().stop, [])
      requires offsetToBlock == map l | l in basicBlocks :: Block([], {})
      modifies `basicBlocks, `offsetToBlock
      ensures basicBlocks == Leaders(code, startOffset, Scope().stop) && Consistent()
      ensures Filled(Scope(), offsetToBlock)
    {
      hide Filling, Filled, Range.IsSound, Range.Leads, Complete, NextOf, Distinct;
      var stopPointer := Scope().stop;
      MakeStart();
      var current := startOffset;
      var terminatorEncoded := false;
      var decoder := new InstructionDecoder(code, startOffset);
      while decoder.bytePointer < stopPointer
        invariant decoder.code == code && fresh(decoder)
        invariant Consistent() && basicBlocks == Leaders(code, startOffset, stopPointer)
        invariant Filling(Scope(), offsetToBlock, decoder.bytePointer, current, terminatorEncoded)
        invariant decoder.bytePointer == current ==> current == startOffset
        decreases stopPointer - decoder.bytePointer
      {
        current, terminatorEncoded := SwitchBlock(decoder.bytePointer, current, terminatorEncoded);
        FillBlocks(Scope(), offsetToBlock, decoder.bytePointer, current, terminatorEncoded);
        if terminatorEncoded {
          FillSkips(Scope(), offsetToBlock, decoder.bytePointer, current);
          var dead := decoder.DecodeAndShiftPointer();
        } else {
          terminatorEncoded := TakeInstruction(decoder, current);
        }
      }
      FillEnds(Scope(), offsetToBlock, decoder.bytePointer, current, terminatorEncoded);
    }

    // ---- Phase 3: wiping out unreachable blocks ----

    method GetNextBlockOffset(current: nat) returns (next: nat)
      ensures next == NextBlock(offsetToBlock.Keys, current + 1, stopOffset)
    {
      var offset := current + 1;
      while offset < stopOffset
        invariant NextBlock(offsetToBlock.Keys, offset, stopOffset) ==
                  NextBlock(offsetToBlock.Keys, current + 1, stopOffset)
      {
        if offset in offsetToBlock { return offset; }
        offset := offset + 1;
      }
      return 0;
    }

    /** Takes a block out of the referers of the blocks it goes to, as far as the parser finds
        them.  When the target of its branch is not there, the assertion of the source fails. */
    method EraseReferers(block: nat) returns (found: bool)
      requires block in offsetToBlock && offsetToBlock[block].HasTerminator()
      modifies `offsetToBlock
      ensures offsetToBlock.Keys == old(offsetToBlock.Keys)
      ensures found <==>
              (old(offsetToBlock)[block].Last().IsBranch() ==> old(offsetToBlock)[block].Last().extra in offsetToBlock)
      ensures found ==> offsetToBlock - {block} == Erased(old(offsetToBlock), block, stopOffset)
    {
      hide NextBlock;
      NextBlockFound(offsetToBlock.Keys, block + 1, stopOffset);
      var terminator := offsetToBlock[block].Last();
      if terminator.IsBranch() {
        var skip := 0;
        if terminator.argument != BRANCH { skip := GetNextBlockOffset(block); }
        if terminator.extra !in offsetToBlock { return false; }
        offsetToBlock := EraseReferer(offsetToBlock, terminator.extra, block);
        if skip != 0 { offsetToBlock := EraseReferer(offsetToBlock, skip, block); }
      }
      return true;
    }

    method EraseBasicBlock(i: nat)
      requires Consistent() && i < |basicBlocks|
      modifies `basicBlocks, `offsetToBlock
      ensures Consistent() && basicBlocks == Without(old(basicBlocks), i)
      ensures offsetToBlock == old(offsetToBlock) - {old(basicBlocks[i])}
    {
      hide Distinct;
      ListWithout(basicBlocks, i);
      offsetToBlock := offsetToBlock - {basicBlocks[i]};
      basicBlocks := Without(basicBlocks, i);
    }

    /** Erases the i-th block of the list, which nobody refers to. */
    method Erase(i: nat) returns (found: bool)
      requires Consistent() && i < |basicBlocks| && Pruned(Scope(), stopOffset, offsetToBlock)
      requires basicBlocks[i] in offsetToBlock && offsetToBlock[basicBlocks[i]].referers == {}
      requires basicBlocks[i] != startOffset
      modifies `basicBlocks, `offsetToBlock
      ensures old(offsetToBlock)[old(basicBlocks[i])].HasTerminator()
      ensures found <==> !Misses(old(offsetToBlock), old(basicBlocks[i]))
      ensures found ==> Consistent() && Pruned(Scope(), stopOffset, offsetToBlock)
      ensures found ==> basicBlocks == Without(old(basicBlocks), i)
      ensures found ==> offsetToBlock == Erased(old(offsetToBlock), old(basicBlocks[i]), stopOffset)
    {
      hide Pruned, NextBlock, Lingers, Distinct, Erased, Blind;
      var block := basicBlocks[i];
      PruneStep(Scope(), stopOffset, offsetToBlock, block);
      found := EraseReferers(block);
      if found { EraseBasicBlock(i); }
    }

    /** Erases blocks that nobody refers to until there are none.  What is left is the largest
        set in which every block but the start has a referer.  The parser fails exactly if in
        its own order the target of a block that is noted nowhere goes before that block. */
    method WipeOut() returns (found: bool)
      requires Scope().IsSound() && basicBlocks == Scope().Order() && Consistent()
      requires Pruned(Scope(), stopOffset, offsetToBlock)
      modifies `basicBlocks, `offsetToBlock
      ensures found <==> !ParserStrands(Scope(), stopOffset)
      ensures found ==> Consistent() && Pruned(Scope(), stopOffset, offsetToBlock) && Wiped(Scope(), offsetToBlock)
      ensures found ==> IsLargest(Scope(), stopOffset, offsetToBlock.Keys)
    {
      hide Pruned, Distinct, Wiping, IsSchedule, ParserStrands, IsLargest, Range.IsSound, Range.Order, Place, Misses,
           Erased;
      ghost var r, n := Scope(), 0;
      ghost var pass := ScheduleExists(r, stopOffset);
      WipingStarts(r, stopOffset, pass, offsetToBlock);
      var blockRemoved := true;
      while blockRemoved
        invariant Consistent() && Wiping(r, stopOffset, pass, basicBlocks, offsetToBlock, n, 0, 0)
        invariant !blockRemoved ==> Wiped(r, offsetToBlock)
        decreases |basicBlocks|, if blockRemoved then 1 else 0
      {
        blockRemoved := false;
        ghost var was := |basicBlocks|;
        ghost var p: nat := 0;
        var i := 0;
        while i < |basicBlocks|
          invariant Consistent() && i <= |basicBlocks| <= was
          invariant Wiping(r, stopOffset, pass, basicBlocks, offsetToBlock, n, i, p)
          invariant blockRemoved ==> |basicBlocks| < was
          invariant !blockRemoved ==> forall j | 0 <= j < i ::
            basicBlocks[j] in offsetToBlock &&
              (basicBlocks[j] == startOffset || offsetToBlock[basicBlocks[j]].referers != {})
          decreases |basicBlocks| - i
        {
          assert basicBlocks[i] in basicBlocks;
          ghost var q := Place(r.Order(), basicBlocks[i]) + 1;
          if offsetToBlock[basicBlocks[i]].referers == {} && basicBlocks[i] != startOffset {
            WipingErases(r, stopOffset, pass, basicBlocks, offsetToBlock, n, i, p);
            found := Erase(i);
            if !found { return; }
            p := q;
            blockRemoved := true;
            continue;
          }
          WipingStays(r, stopOffset, pass, basicBlocks, offsetToBlock, n, i, p);
          p := q;
          i := i + 1;
        }
        assert forall l | l in offsetToBlock :: l in basicBlocks;
        WipingAgain(r, stopOffset, pass, basicBlocks, offsetToBlock, n, p);
        n := n + 1;
      }
      WipingEnds(r, stopOffset, pass, basicBlocks, offsetToBlock, n);
      return true;
    }

    // ---- The whole parser ----

    lemma StillEmpty()
      requires Empty()
      ensures offsetToBlock == map l | l in basicBlocks :: Block([], {})
    {
    }

    /** The range has been parsed: what is left are its blocks, pruned of those nobody refers to. */
    ghost predicate IsParsed(range: (nat, nat))
      reads this
    {
      && startOffset == range.0 && Scope().stop == range.1 && Consistent()
      && Pruned(Scope(), stopOffset, offsetToBlock) && Wiped(Scope(), offsetToBlock)
    }

    /** Parses one nested block, and those inside it, and registers it with the method. */
    method ParseBlock(container: ParsedMethod, startOffset: nat, stopOffset: nat) returns (found: bool)
      requires Range(code, startOffset, stopOffset).IsSound() && stopOffset != 0
      modifies container
      ensures found <==>
              !AnyStrands(code, NestedRanges(code, startOffset, stopOffset) + [(startOffset, stopOffset)])
      ensures old(container.parsedBlocks) <= container.parsedBlocks
      ensures found ==> Registered(code, container.parsedBlocks[|old(container.parsedBlocks)|..],
                         NestedRanges(code, startOffset, stopOffset) + [(startOffset, stopOffset)])
      ensures forall p | p in container.parsedBlocks[|old(container.parsedBlocks)|..] :: fresh(p)
      decreases if startOffset < stopOffset then stopOffset - startOffset else 0, 2
    {
      hide Range.IsSound, Registered, NestedRanges, IsParsed, ParserStrands, AnyStrands;
      ghost var was := container.parsedBlocks;
      StrandsOfBoth(code, NestedRanges(code, startOffset, stopOffset), [(startOffset, stopOffset)]);
      StrandsOfOne(code, (startOffset, stopOffset));
      var parsedBlock := new ParsedBytecode(code, startOffset, stopOffset);
      found := parsedBlock.Parse(container);
      if !found { return; }
      ghost var inner := container.parsedBlocks[|was|..];
      container.parsedBlocks := container.parsedBlocks + [parsedBlock];
      RegisteredOne(code, parsedBlock, (startOffset, stopOffset));
      RegisteredMore(code, inner, [parsedBlock], NestedRanges(code, startOffset, stopOffset),
                     [(startOffset, stopOffset)]);
      assert container.parsedBlocks[|was|..] == inner + [parsedBlock];
    }

    /** Finds where blocks begin and parses the nested blocks on the way. */
    method CollectBranches(container: ParsedMethod) returns (found: bool)
      requires Scope().IsSound() && basicBlocks == [] && offsetToBlock == map[]
      modifies `basicBlocks, `offsetToBlock, container
      ensures found <==> !AnyStrands(code, NestedRanges(code, startOffset, Scope().stop))
      ensures found ==> Empty() && basicBlocks == Found(code, startOffset, Scope().stop, [])
      ensures old(container.parsedBlocks) <= container.parsedBlocks
      ensures found ==> Registered(code, container.parsedBlocks[|old(container.parsedBlocks)|..],
                         NestedRanges(code, startOffset, Scope().stop))
      ensures forall p | p in container.parsedBlocks[|old(container.parsedBlocks)|..] :: fresh(p)
      decreases if startOffset < Scope().stop then Scope().stop - startOffset else 0, 0
    {
      hide Range.IsSound, Registered, NestedRanges, Found, Empty, Range.Has, AnyStrands;
      ghost var was := container.parsedBlocks;
      ghost var done: seq<(nat, nat)> := [];
      ScanStarts(Scope());
      StartsEmpty();
      var stopPointer := Scope().stop;
      var decoder := new InstructionDecoder(code, startOffset);
      RegisteredNone(code);
      StrandsOfNone(code);
      assert container.parsedBlocks[|was|..] == [];
      while decoder.bytePointer < stopPointer
        invariant decoder.code == code && fresh(decoder)
        invariant startOffset <= decoder.bytePointer <= stopPointer
        invariant decoder.bytePointer < stopPointer ==> Scope().Has(decoder.bytePointer)
        invariant Empty()
        invariant Found(code, decoder.bytePointer, stopPointer, basicBlocks) ==
                  Found(code, startOffset, stopPointer, [])
        invariant NestedRanges(code, startOffset, stopPointer) ==
                  done + NestedRanges(code, decoder.bytePointer, stopPointer)
        invariant was <= container.parsedBlocks && Registered(code, container.parsedBlocks[|was|..], done)
        invariant forall p | p in container.parsedBlocks[|was|..] :: fresh(p)
        invariant !AnyStrands(code, done)
        decreases stopPointer - decoder.bytePointer
      {
        ghost var ptr := decoder.bytePointer;
        SoundAt(Scope(), ptr);
        ScanStep(Scope(), ptr, basicBlocks, done);
        assert this !in container.parsedBlocks[|was|..];
        var instruction := decoder.DecodeAndShiftPointer();
        if instruction.opcode == PUSH_BLOCK {
          ghost var before := container.parsedBlocks;
          ghost var from, to := After(code, ptr), instruction.extra;
          ghost var more := NestedRanges(code, from, to) + [(from, to)];
          found := ParseBlock(container, decoder.bytePointer, instruction.extra);
          assert container.parsedBlocks[|was|..] == before[|was|..] + container.parsedBlocks[|before|..];
          StrandsOfBoth(code, done, more);
          StrandsOfBoth(code, done + more, NestedRanges(code, Step(code, ptr), stopPointer));
          if !found { return; }
          RegisteredMore(code, before[|was|..], container.parsedBlocks[|before|..], done, more);
          done := done + more;
          decoder.bytePointer := instruction.extra;
          continue;
        }
        if instruction.opcode != DO_SPECIAL { continue; }
        CreateBranchBlocks(instruction, decoder.bytePointer);
      }
      ScanEnds(Scope(), basicBlocks);
      assert done + [] == done;
      return true;
    }

    /** Builds the blocks of the range and of all ranges nested in it.  The parser fails exactly
        if in one of them a block that is noted nowhere is erased after its target. */
    method Parse(container: ParsedMethod) returns (found: bool)
      requires Scope().IsSound() && basicBlocks == [] && offsetToBlock == map[]
      requires stopOffset == 0 || stopOffset == Scope().stop
      modifies `basicBlocks, `offsetToBlock, container
      ensures found <==>
        !ParserStrands(Scope(), stopOffset) && !AnyStrands(code, NestedRanges(code, startOffset, Scope().stop))
      ensures found ==> IsParsed((startOffset, Scope().stop))
      ensures old(container.parsedBlocks) <= container.parsedBlocks
      ensures found ==> Registered(code, container.parsedBlocks[|old(container.parsedBlocks)|..],
                                   NestedRanges(code, startOffset, Scope().stop))
      ensures forall p | p in container.parsedBlocks[|old(container.parsedBlocks)|..] :: fresh(p)
      decreases if startOffset < Scope().stop then Scope().stop - startOffset else 0, 1
    {
      hide Registered, NestedRanges, Filled, Pruned, Empty, Consistent, ParserStrands, AnyStrands, Wiped, IsLargest,
           Leaders;
      ghost var was := container.parsedBlocks;
      found := CollectBranches(container);
      if !found { return; }
      StillEmpty();
      assert this !in container.parsedBlocks[|was|..];
      Populate();
      PruneStarts(Scope(), stopOffset, offsetToBlock);
      found := WipeOut();
    }
  }

  /** Parsed blocks for exactly these ranges, in this order. */
  ghost predicate Registered(code: Code, blocks: seq<ParsedBytecode>, ranges: seq<(nat, nat)>)
    reads blocks
  {
    |blocks| == |ranges| && forall i | 0 <= i < |ranges| :: blocks[i].code == code && blocks[i].IsParsed(ranges[i])
  }

  lemma RegisteredNone(code: Code)
    ensures Registered(code, [], [])
  {
  }

  lemma RegisteredOne(code: Code, p: ParsedBytecode, range: (nat, nat))
    requires p.code == code && p.IsParsed(range)
    ensures Registered(code, [p], [range])
  {
  }

  lemma ScanStarts(r: Range)
    requires r.IsSound()
    ensures r.start < r.stop && r.Has(r.start)
  {
  }

  /** One step of the scan. */
  lemma ScanStep(r: Range, pc: nat, order: seq<nat>, done: seq<(nat, nat)>)
    requires pc < Step(r.code, pc) <= r.stop && pc < After(r.code, pc)
    ensures Found(r.code, pc, r.stop, order) ==
            Found(r.code, Step(r.code, pc), r.stop, ListedAll(order, Marks(r.code, pc)))
    ensures At(r.code, pc).opcode != DO_SPECIAL ==> ListedAll(order, Marks(r.code, pc)) == order
    ensures At(r.code, pc).opcode != PUSH_BLOCK ==>
              NestedRanges(r.code, pc, r.stop) == NestedRanges(r.code, Step(r.code, pc), r.stop)
    ensures At(r.code, pc).opcode == PUSH_BLOCK ==>
      done + NestedRanges(r.code, pc, r.stop) ==
      (done + (NestedRanges(r.code, After(r.code, pc), At(r.code, pc).extra)
               + [(After(r.code, pc), At(r.code, pc).extra)]))
      + NestedRanges(r.code, Step(r.code, pc), r.stop)
  {
  }

  lemma ScanEnds(r: Range, order: seq<nat>)
    ensures Found(r.code, r.stop, r.stop, order) == order && NestedRanges(r.code, r.stop, r.stop) == []
  {
  }

  lemma RegisteredMore(code: Code, a: seq<ParsedBytecode>, b: seq<ParsedBytecode>, r: seq<(nat, nat)>,
                       s: seq<(nat, nat)>)
    requires Registered(code, a, r) && Registered(code, b, s)
    ensures Registered(code, a + b, r + s)
  {
    hide ParsedBytecode.IsParsed;
  }

  /** What the scan finds at an instruction of the range. */
  lemma SoundAt(r: Range, pc: nat)
    requires r.IsSound() && r.Has(pc)
    ensures Complete(r.code, pc) && pc < After(r.code, pc) && pc < Step(r.code, pc) <= r.stop
    ensures Step(r.code, pc) < r.stop ==> r.Has(Step(r.code, pc))
    ensures At(r.code, pc).opcode == PUSH_BLOCK ==>
      && Range(r.code, After(r.code, pc), At(r.code, pc).extra).IsSound() && At(r.code, pc).extra != 0
      && After(r.code, pc) < At(r.code, pc).extra < r.stop && r.start < After(r.code, pc)
      && Marks(r.code, pc) == []
  {
    WellFormedAt(r.code, r.start, r.stop, pc);
    StepFits(r.code, pc, r.stop);
    assert Steps(r.code, pc, Step(r.code, pc));
    StepsTransitive(r.code, r.start, pc, Step(r.code, pc));
    if At(r.code, pc).opcode == PUSH_BLOCK { NestedAt(r.code, r.start, r.stop, pc); }
  }

  /** What the parser leaves means what the raw code means exactly if where a reachable block
      goes that is noted nowhere has other support in the code, which is exactly if no reachable
      block is missing; without dead code after the last branch none ever is. */
  lemma ParsedMeansTheSame(p: ParsedBytecode, range: (nat, nat))
    requires p.IsParsed(range)
    ensures IsLargest(p.Scope(), p.stopOffset, p.offsetToBlock.Keys)
    ensures RunsTheSame(p.Scope(), p.offsetToBlock) <==> BackedUp(p.Scope(), p.stopOffset)
    ensures RunsTheSame(p.Scope(), p.offsetToBlock) <==> Reached(p.Scope()) <= p.offsetToBlock.Keys
    ensures RunsTheSame(p.Scope(), p.offsetToBlock) <==>
            forall b | Blind(p.Scope(), b) && b in Reached(p.Scope()) :: p.Scope().Goes(b) <= p.offsetToBlock.Keys
    ensures LastBranchIsLast(p.Scope()) ==> RunsTheSame(p.Scope(), p.offsetToBlock)
  {
    hide Pruned, RunsTheSame, Reached, Blind, Range.Goes, LastBranchIsLast, IsLargest, Wiped, BackedUp;
    WipedIsLargest(p.Scope(), p.stopOffset, p.offsetToBlock);
    ReachableKept(p.Scope(), p.stopOffset, p.offsetToBlock);
    MeansTheSameIff(p.Scope(), p.stopOffset, p.offsetToBlock);
  }

  /** Without dead code after a last branch the parser does not fail. */
  lemma NeverStrands(r: Range, stopOffset: nat)
    requires LastBranchIsLast(r)
    ensures !ParserStrands(r, stopOffset) && !MayStrand(r, stopOffset)
  {
    NoneBlind(r);
    hide Doomed, Range.Goes, Counted, LastBranchIsLast, IsSchedule, Sooner;
  }

  /** The parser is given a method that it fails on. */
  method RefusesDangling() returns (found: bool)
    ensures Sound(DANGLING, 0, |DANGLING|) && !found
  {
    hide Sound, ParserStrands, AnyStrands, NestedRanges;
    DanglingSound();
    TargetGone(0);
    var container := new ParsedMethod();
    var parser := new ParsedBytecode(DANGLING, 0, 0);
    found := parser.Parse(container);
  }
}
