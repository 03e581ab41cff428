/** What the parsed blocks are worth: exact referers, safe pruning and runs that agree with the raw code. */
module Pruning {
  import opened Instructions
  import opened ControlFlow
  import opened BasicBlocks

  // ---- Exact referers ----

  /** Each block knows exactly the blocks that go to it. */
  ghost predicate Exact(r: Range, blocks: Blocks) {
    && blocks.Keys == r.Leads()
    && forall l | l in r.Leads() :: blocks[l].referers == set b | b in r.Leads() && l in r.Goes(b)
  }

  /** The last block goes nowhere, or its branch is the last instruction: no dead code follows it. */
  ghost predicate LastBranchIsLast(r: Range) {
    forall b | b in r.Leads() && !(exists l :: l in r.Leads() && l > b) ::
      r.Goes(b) == {} || (r.Leaves(b).By? && After(r.code, r.Leaves(b).pc) >= r.stop)
  }

  /** The referers are exact after filling exactly if no dead code follows the last branch. */
  lemma ExactIff(r: Range, blocks: Blocks)
    requires r.IsSound() && Filled(r, blocks)
    ensures Exact(r, blocks) <==> LastBranchIsLast(r)
  {
    hide Sound, LeaderSet, ExitOf, Successors;
    if LastBranchIsLast(r) {
      forall l | l in r.Leads()
        ensures blocks[l].referers == set b | b in r.Leads() && l in r.Goes(b)
      {
      }
    }
    if Exact(r, blocks) {
      forall b | b in r.Leads() && !(exists l :: l in r.Leads() && l > b) && r.Goes(b) != {}
        ensures Counted(r, b)
      {
        GoesByLast(r, b);
        var l :| l in r.Goes(b);
        assert b in blocks[l].referers;
      }
    }
  }

  // ---- Pruning ----

  /** The parser's search for the block after an offset; 0 when there is none before `stop`. */
  function NextBlock(keys: set<nat>, from: nat, stop: nat): nat
    decreases if from < stop then stop - from else 0
  {
    if from >= stop then 0 else if from in keys then from else NextBlock(keys, from + 1, stop)
  }

  lemma {:induction false} NextBlockIs(keys: set<nat>, from: nat, stop: nat, next: nat)
    requires from <= next < stop && next in keys && forall l | l in keys && from <= l :: next <= l
    ensures NextBlock(keys, from, stop) == next
    decreases next - from
  {
    if from != next { NextBlockIs(keys, from + 1, stop, next); }
  }

  lemma {:induction false} NextBlockFound(keys: set<nat>, from: nat, stop: nat)
    ensures NextBlock(keys, from, stop) == 0 || NextBlock(keys, from, stop) in keys
    decreases if from < stop then stop - from else 0
  {
    if from < stop && from !in keys { NextBlockFound(keys, from + 1, stop); }
  }

  function EraseReferer(blocks: Blocks, to: nat, from: nat): Blocks
    requires to in blocks
  {
    blocks[to := blocks[to].(referers := blocks[to].referers - {from})]
  }

  /** An erased block stays a referer of the block it skipped to, if the parser was given no stop offset to find it. */
  ghost predicate Lingers(r: Range, stopOffset: nat, b: nat, l: nat) {
    stopOffset == 0 && r.Holds(b) != [] && var last := r.Holds(b)[|r.Holds(b)| - 1];
      last.IsConditional() && l != last.extra
  }

  /** The parser has noted b as a referer of l. */
  ghost predicate Noted(r: Range, b: nat, l: nat) {
    b in r.Leads() && l in r.Goes(b) && Counted(r, b)
  }

  /** A block that goes somewhere, but is noted nowhere: the last one, when dead code follows its branch. */
  ghost predicate Blind(r: Range, b: nat) {
    b in r.Leads() && r.Goes(b) != {} && !Counted(r, b)
  }

  lemma BlindGoes(r: Range, b: nat)
    requires r.IsSound() && Blind(r, b)
    ensures r.Holds(b) != []
    ensures var last := r.Holds(b)[|r.Holds(b)| - 1];
      last.IsBranch() && !last.IsConditional() && r.Goes(b) == {last.extra} && last.extra in r.Leads()
  {
    hide Sound, LeaderSet, ExitOf, Successors, Body;
    GoesByLast(r, b);
  }

  lemma NoneBlind(r: Range)
    ensures LastBranchIsLast(r) <==> forall b | b in r.Leads() :: !Blind(r, b)
  {
    hide LeaderSet, ExitOf, Successors;
    if forall b | b in r.Leads() :: !Blind(r, b) {
      forall b | b in r.Leads() && !(exists l :: l in r.Leads() && l > b)
        ensures r.Goes(b) == {} || (r.Leaves(b).By? && After(r.code, r.Leaves(b).pc) >= r.stop)
      {
        assert !Blind(r, b);
      }
    }
  }

  ghost function Remaining(r: Range, stopOffset: nat, keys: set<nat>, l: nat): set<nat> {
    set b | b in r.Leads() && Noted(r, b, l) && (b in keys || Lingers(r, stopOffset, b, l))
  }

  /** A set of blocks that wiping cannot touch: the start is in it, and every other block of
      it has a referer that is in it or lingers. */
  ghost predicate Supported(r: Range, stopOffset: nat, kept: set<nat>) {
    && r.start in kept && kept <= r.Leads()
    && forall l | l in kept && l != r.start :: Remaining(r, stopOffset, kept, l) != {}
  }

  ghost predicate IsLargest(r: Range, stopOffset: nat, kept: set<nat>) {
    Supported(r, stopOffset, kept) && forall s | Supported(r, stopOffset, s) :: s <= kept
  }

  /** There is one largest set, so the order in which blocks are erased does not matter. */
  lemma LargestUnique(r: Range, stopOffset: nat, a: set<nat>, b: set<nat>)
    requires IsLargest(r, stopOffset, a) && IsLargest(r, stopOffset, b)
    ensures a == b
  {
    hide Supported;
  }

  /** The blocks while unreachable ones are wiped out. */
  ghost predicate Pruned(r: Range, stopOffset: nat, blocks: Blocks) {
    && r.IsSound() && (stopOffset == 0 || stopOffset == r.stop)
    && blocks.Keys <= r.Leads() && r.start in blocks
    && (forall l | l in blocks ::
          blocks[l].instructions == r.Holds(l) && blocks[l].referers == Remaining(r, stopOffset, blocks.Keys, l))
    && (forall b, l | b in blocks && Noted(r, b, l) :: l in blocks)
    && (forall s | Supported(r, stopOffset, s) :: s <= blocks.Keys)
  }

  /** No block is left to erase. */
  ghost predicate Wiped(r: Range, blocks: Blocks) {
    forall l | l in blocks && l != r.start :: blocks[l].referers != {}
  }

  lemma PruneStarts(r: Range, stopOffset: nat, blocks: Blocks)
    requires r.IsSound() && (stopOffset == 0 || stopOffset == r.stop) && Filled(r, blocks)
    ensures Pruned(r, stopOffset, blocks)
  {
    hide Sound, LeaderSet, ExitOf, Successors, Lingers, Counted;
    LeaderStart(r);
    forall b, l | b in blocks && Noted(r, b, l)
      ensures l in blocks
    {
      GoesByLast(r, b);
    }
  }

  lemma LeaderStart(r: Range)
    requires r.IsSound()
    ensures r.start in r.Leads()
  {
    LeadersFit(r.code, r.start, r.stop);
  }

  /** The blocks without b, which no longer refers to the blocks the parser finds it went to. */
  function Erased(blocks: Blocks, b: nat, stopOffset: nat): Blocks
    requires b in blocks && blocks[b].HasTerminator()
  {
    var last := blocks[b].Last();
    var skip := if last.IsConditional() then NextBlock(blocks.Keys, b + 1, stopOffset) else 0;
    var now := if last.IsBranch() && last.extra in blocks then EraseReferer(blocks, last.extra, b) else blocks;
    (if skip != 0 && skip in now then EraseReferer(now, skip, b) else now) - {b}
  }

  /** For a block nobody refers to: nothing there is noted as going to it, and where it goes
      itself is there and found, unless it is the one that is noted nowhere. */
  lemma EraseFinds(r: Range, stopOffset: nat, blocks: Blocks, b: nat)
    requires Pruned(r, stopOffset, blocks) && b in blocks && blocks[b].referers == {}
    ensures blocks[b].HasTerminator() && blocks[b].Last() == r.Holds(b)[|r.Holds(b)| - 1]
    ensures blocks[b].Last().IsBranch() && !Blind(r, b) ==>
              blocks[b].Last().extra in blocks && blocks[b].Last().extra != b
    ensures Blind(r, b) ==> blocks[b].Last().IsBranch() && !blocks[b].Last().IsConditional()
    ensures blocks[b].Last().IsConditional() ==>
      && r.Leaves(b).By? && !Blind(r, b)
      && var skip := After(r.code, r.Leaves(b).pc);
      skip in blocks && skip != b && skip != 0 && r.Goes(b) == {blocks[b].Last().extra, skip}
      && NextBlock(blocks.Keys, b + 1, stopOffset) == if stopOffset == 0 then 0 else skip
    ensures forall c | c in blocks :: !Noted(r, c, b)
  {
    hide Sound, LeaderSet, Successors, ExitOf, Lingers, Body, Counted;
    GoesByLast(r, b);
    forall c | c in blocks
      ensures !Noted(r, c, b)
    {
      assert c in Remaining(r, stopOffset, blocks.Keys, b) <==> Noted(r, c, b);
    }
    var last := blocks[b].Last();
    if last.IsBranch() && !Blind(r, b) { assert Noted(r, b, last.extra); }
    if Blind(r, b) { BlindGoes(r, b); }
    if last.IsConditional() {
      LeaderHas(r, b);
      BodyEnds(r, b, true);
      SkipIsNext(r, b);
      assert Noted(r, b, After(r.code, r.Leaves(b).pc));
      if stopOffset != 0 { NextBlockIs(blocks.Keys, b + 1, stopOffset, After(r.code, r.Leaves(b).pc)); }
    }
  }

  /** What no referer supports is in no set that wiping cannot touch. */
  lemma Unsupported(r: Range, stopOffset: nat, blocks: Blocks, b: nat, kept: set<nat>)
    requires Pruned(r, stopOffset, blocks) && b in blocks && blocks[b].referers == {} && b != r.start
    requires Supported(r, stopOffset, kept)
    ensures b !in kept
  {
    hide Remaining, Range.IsSound, Range.Leads;
    if b in kept { MoreRemain(r, stopOffset, kept, blocks.Keys, b); }
  }

  lemma MoreRemain(r: Range, stopOffset: nat, keys: set<nat>, more: set<nat>, l: nat)
    requires keys <= more
    ensures Remaining(r, stopOffset, keys, l) <= Remaining(r, stopOffset, more, l)
  {
    hide Noted, Lingers, Range.Leads;
  }

  /** Erasing a block that nobody refers to and that is not the start keeps everything pruning promises. */
  lemma PruneStep(r: Range, stopOffset: nat, blocks: Blocks, b: nat)
    requires Pruned(r, stopOffset, blocks) && b in blocks && blocks[b].referers == {} && b != r.start
    ensures blocks[b].HasTerminator()
    ensures Pruned(r, stopOffset, Erased(blocks, b, stopOffset))
    ensures Erased(blocks, b, stopOffset).Keys == blocks.Keys - {b}
  {
    hide Sound, LeaderSet, Successors, ExitOf, Body, Counted, Noted, Lingers, Supported, Erased;
    EraseFinds(r, stopOffset, blocks, b);
    var now := Erased(blocks, b, stopOffset);
    forall l
      ensures l in now <==> l in blocks && l != b
      ensures l in now ==> now[l].instructions == r.Holds(l) && now[l].referers == Remaining(r, stopOffset, now.Keys, l)
    {
      if l in blocks { ErasedAt(r, stopOffset, blocks, b, l); }
      ErasedKeys(blocks, b, stopOffset);
    }
    forall s | Supported(r, stopOffset, s)
      ensures s <= now.Keys
    {
      Unsupported(r, stopOffset, blocks, b, s);
    }
  }

  lemma ErasedKeys(blocks: Blocks, b: nat, stopOffset: nat)
    requires b in blocks && blocks[b].HasTerminator()
    ensures Erased(blocks, b, stopOffset).Keys == blocks.Keys - {b}
  {
    hide NextBlock;
  }

  /** What erasing one block does to another. */
  lemma ErasedAt(r: Range, stopOffset: nat, blocks: Blocks, b: nat, l: nat)
    requires Pruned(r, stopOffset, blocks) && b in blocks && blocks[b].referers == {} && l in blocks
    ensures blocks[b].HasTerminator()
    ensures var now := Erased(blocks, b, stopOffset);
      l != b ==>
        l in now && now[l] == Block(r.Holds(l), Remaining(r, stopOffset, blocks.Keys - {b}, l))
  {
    hide Sound, LeaderSet, Successors, ExitOf, Body, Counted, NextBlock;
    EraseFinds(r, stopOffset, blocks, b);
    GoesByLast(r, b);
    if Blind(r, b) { BlindGoes(r, b); }
    var last := blocks[b].Last();
    if l != b {
      assert Lingers(r, stopOffset, b, l) == (stopOffset == 0 && last.IsConditional() && l != last.extra);
      assert Remaining(r, stopOffset, blocks.Keys - {b}, l) ==
        if Noted(r, b, l) && !Lingers(r, stopOffset, b, l) then blocks[l].referers - {b} else blocks[l].referers;
    }
  }

  /** When no block is left to erase, the blocks are the largest set with a referer each. */
  lemma WipedIsLargest(r: Range, stopOffset: nat, blocks: Blocks)
    requires Pruned(r, stopOffset, blocks) && Wiped(r, blocks)
    ensures IsLargest(r, stopOffset, blocks.Keys)
  {
    hide Remaining, Range.IsSound, Noted, Range.Leads;
  }

  // ---- A block whose target is gone ----

  /** A block that is in no set that wiping cannot touch. */
  ghost predicate Doomed(r: Range, stopOffset: nat, l: nat) {
    l in r.Leads() && forall s | Supported(r, stopOffset, s) :: l !in s
  }

  /** A block that is noted nowhere and the one it goes to are both doomed. */
  ghost predicate MayStrand(r: Range, stopOffset: nat) {
    exists b, t :: Blind(r, b) && t in r.Goes(b) && t != b && Doomed(r, stopOffset, b) && Doomed(r, stopOffset, t)
  }

  /** The branch of a block goes to one that is not there. */
  predicate Misses(blocks: Blocks, b: nat) {
    b in blocks && blocks[b].HasTerminator() && blocks[b].Last().IsBranch() && blocks[b].Last().extra !in blocks
  }

  /** Erasing these blocks one after the other is what the parser may do up to the last of them,
      whose branch goes to a block that is no longer there: the assertion of the source fails. */
  ghost predicate Strands(r: Range, stopOffset: nat, blocks: Blocks, victims: seq<nat>)
    decreases |victims|
  {
    && victims != [] && victims[0] in blocks && victims[0] != r.start
    && blocks[victims[0]].referers == {} && blocks[victims[0]].HasTerminator()
    && if |victims| == 1 then Misses(blocks, victims[0])
       else !Misses(blocks, victims[0]) && Strands(r, stopOffset, Erased(blocks, victims[0], stopOffset), victims[1..])
  }

  /** Only a block that is noted nowhere can come to be erased after its target; both are doomed. */
  lemma MissingIsBlind(r: Range, stopOffset: nat, blocks: Blocks, b: nat)
    requires Pruned(r, stopOffset, blocks) && b in blocks && blocks[b].referers == {} && b != r.start
    requires Misses(blocks, b)
    ensures Blind(r, b) && r.Goes(b) == {blocks[b].Last().extra}
    ensures Doomed(r, stopOffset, b) && Doomed(r, stopOffset, blocks[b].Last().extra)
  {
    hide Sound, LeaderSet, Successors, ExitOf, Body, Noted, Supported, Remaining, Counted;
    EraseFinds(r, stopOffset, blocks, b);
    BlindGoes(r, b);
    forall s | Supported(r, stopOffset, s)
      ensures b !in s
    {
      Unsupported(r, stopOffset, blocks, b, s);
    }
  }

  /** What is erased is doomed. */
  lemma ErasedIsDoomed(r: Range, stopOffset: nat, blocks: Blocks, b: nat)
    requires Pruned(r, stopOffset, blocks) && b in blocks && blocks[b].referers == {} && b != r.start
    ensures Doomed(r, stopOffset, b)
  {
    hide Supported, Range.IsSound, Range.Leads, Remaining, Noted;
    forall s | Supported(r, stopOffset, s)
      ensures b !in s
    {
      Unsupported(r, stopOffset, blocks, b, s);
    }
  }

  /** The targets of every other block are found. */
  lemma SeeingFinds(r: Range, stopOffset: nat, blocks: Blocks, b: nat)
    requires Pruned(r, stopOffset, blocks) && b in blocks && blocks[b].referers == {} && !Blind(r, b)
    ensures blocks[b].HasTerminator() && (blocks[b].Last().IsBranch() ==> blocks[b].Last().extra in blocks)
  {
    hide Pruned, Blind;
    EraseFinds(r, stopOffset, blocks, b);
  }

  /** Only the last block can be noted nowhere. */
  lemma BlindIsLast(r: Range, b: nat, c: nat)
    requires Blind(r, b) && Blind(r, c)
    ensures b == c
  {
    hide Range.Goes, Range.Leads, Range.Leaves;
  }

  /** Some order of erasing strands exactly if a block that is noted nowhere is doomed together
      with another block that it goes to. */
  lemma SomeOrderStrands(r: Range, stopOffset: nat, blocks: Blocks)
    requires Pruned(r, stopOffset, blocks) && blocks.Keys == r.Leads()
    ensures (exists victims :: Strands(r, stopOffset, blocks, victims)) <==> MayStrand(r, stopOffset)
  {
    hide Pruned, Doomed, Strands, Blind, Range.Goes, Range.Leads;
    if exists victims :: Strands(r, stopOffset, blocks, victims) {
      var victims :| Strands(r, stopOffset, blocks, victims);
      StrandingIsDoomed(r, stopOffset, blocks, victims);
    }
    if MayStrand(r, stopOffset) {
      var b, t :| Blind(r, b) && t in r.Goes(b) && t != b && Doomed(r, stopOffset, b) && Doomed(r, stopOffset, t);
      InLeads(r, stopOffset, b);
      var victims := StrandingOrder(r, stopOffset, blocks, b, t);
    }
  }

  lemma InLeads(r: Range, stopOffset: nat, l: nat)
    requires Doomed(r, stopOffset, l)
    ensures l in r.Leads()
  {
  }

  lemma {:induction false} StrandingIsDoomed(r: Range, stopOffset: nat, blocks: Blocks, victims: seq<nat>)
    requires Pruned(r, stopOffset, blocks) && Strands(r, stopOffset, blocks, victims)
    ensures MayStrand(r, stopOffset)
    decreases |victims|
  {
    hide Pruned, Doomed, Blind, Range.Goes, Erased;
    if |victims| == 1 {
      MissingIsBlind(r, stopOffset, blocks, victims[0]);
    } else {
      PruneStep(r, stopOffset, blocks, victims[0]);
      StrandingIsDoomed(r, stopOffset, Erased(blocks, victims[0], stopOffset), victims[1..]);
    }
  }

  /** Erase all other blocks that can be erased, and then the one that is noted nowhere. */
  lemma {:induction false} StrandingOrder(r: Range, stopOffset: nat, blocks: Blocks, b: nat, t: nat)
    returns (victims: seq<nat>)
    requires Pruned(r, stopOffset, blocks) && b in blocks
    requires Blind(r, b) && t in r.Goes(b) && t != b && Doomed(r, stopOffset, b) && Doomed(r, stopOffset, t)
    ensures Strands(r, stopOffset, blocks, victims)
    decreases blocks.Keys
  {
    hide Pruned, Doomed, Blind, Range.Goes, Erased;
    if l :| l in blocks && l != b && l != r.start && blocks[l].referers == {} {
      if Blind(r, l) { BlindIsLast(r, b, l); }
      SeeingFinds(r, stopOffset, blocks, l);
      PruneStep(r, stopOffset, blocks, l);
      var rest := StrandingOrder(r, stopOffset, Erased(blocks, l, stopOffset), b, t);
      victims := [l] + rest;
      assert rest != [] && victims[1..] == rest;
    } else {
      LastToGo(r, stopOffset, blocks, b, t);
      victims := [b];
    }
  }

  /** When no other block can be erased, the rest supports itself without the block that is noted nowhere. */
  lemma LastToGo(r: Range, stopOffset: nat, blocks: Blocks, b: nat, t: nat)
    requires Pruned(r, stopOffset, blocks) && b in blocks
    requires forall l | l in blocks && l != b && l != r.start :: blocks[l].referers != {}
    requires Blind(r, b) && t in r.Goes(b) && t != b && Doomed(r, stopOffset, b) && Doomed(r, stopOffset, t)
    ensures b != r.start && blocks[b].referers == {} && blocks[b].HasTerminator()
    ensures blocks[b].Last().IsBranch() && blocks[b].Last().extra == t && t !in blocks
  {
    hide Sound, LeaderSet, Successors, ExitOf, Body, Counted, Supported, Lingers;
    BlindGoes(r, b);
    GoesByLast(r, b);
    StartSupported(r, stopOffset);
    assert Supported(r, stopOffset, {r.start});
    SupportedWithout(r, stopOffset, blocks, b);
    if blocks[b].referers != {} { SupportedAll(r, stopOffset, blocks); }
  }

  lemma StartSupported(r: Range, stopOffset: nat)
    requires r.IsSound()
    ensures Supported(r, stopOffset, {r.start})
  {
    LeaderStart(r);
  }

  lemma SupportedWithout(r: Range, stopOffset: nat, blocks: Blocks, b: nat)
    requires Pruned(r, stopOffset, blocks) && Blind(r, b) && b != r.start
    requires forall l | l in blocks && l != b && l != r.start :: blocks[l].referers != {}
    ensures Supported(r, stopOffset, blocks.Keys - {b})
  {
    hide Range.IsSound, Range.Leads, Range.Goes, Counted, Lingers, Range.Holds;
    var kept := blocks.Keys - {b};
    forall l | l in kept && l != r.start
      ensures Remaining(r, stopOffset, kept, l) != {}
    {
      var c :| c in blocks[l].referers;
      assert c in Remaining(r, stopOffset, kept, l);
    }
  }

  lemma SupportedAll(r: Range, stopOffset: nat, blocks: Blocks)
    requires Pruned(r, stopOffset, blocks) && Wiped(r, blocks)
    ensures Supported(r, stopOffset, blocks.Keys)
  {
    hide Remaining, Range.IsSound, Noted, Range.Leads;
  }

  // ---- The parser's own order ----

  /** The place of a block in the parser's list. */
  function Place(order: seq<nat>, l: nat): nat {
    if order == [] || order[0] == l then 0 else 1 + Place(order[1..], l)
  }

  lemma {:induction false} PlaceAt(order: seq<nat>, i: nat)
    requires Distinct(order) && i < |order|
    ensures Place(order, order[i]) == i
  {
    if i > 0 { PlaceAt(order[1..], i - 1); }
  }

  /** A block that comes after its referer in the list can go in the same pass, otherwise only in the next one. */
  ghost function Lag(r: Range, b: nat, l: nat): nat {
    if Place(r.Order(), b) < Place(r.Order(), l) then 0 else 1
  }

  /** The pass in which each doomed block goes: the first in which all its referers have gone before its turn. */
  ghost predicate IsSchedule(r: Range, stopOffset: nat, pass: map<nat, nat>) {
    && (forall l :: l in pass <==> Doomed(r, stopOffset, l))
    && Timed(r, pass)
  }

  ghost predicate Timed(r: Range, pass: map<nat, nat>) {
    && (forall b, l | l in pass && Noted(r, b, l) :: b in pass && pass[b] + Lag(r, b, l) <= pass[l])
    && (forall l | l in pass && pass[l] != 0 ::
          exists b :: Noted(r, b, l) && b in pass && pass[l] == pass[b] + Lag(r, b, l))
  }

  /** The turn of a block comes before place p of pass n. */
  ghost predicate Sooner(r: Range, pass: map<nat, nat>, l: nat, n: nat, p: nat) {
    l in pass && (pass[l] < n || (pass[l] == n && Place(r.Order(), l) < p))
  }

  /** In the parser's order the target of a block that is noted nowhere goes before that block. */
  ghost predicate IsStranded(r: Range, pass: map<nat, nat>, b: nat, t: nat) {
    Blind(r, b) && t in r.Goes(b) && b in pass && Sooner(r, pass, t, pass[b], Place(r.Order(), b))
  }

  ghost predicate ParserStrands(r: Range, stopOffset: nat) {
    exists pass, b, t :: IsSchedule(r, stopOffset, pass) && IsStranded(r, pass, b, t)
  }

  /** The parser's order is one of the orders. */
  lemma ParserMayStrand(r: Range, stopOffset: nat)
    requires ParserStrands(r, stopOffset)
    ensures MayStrand(r, stopOffset)
  {
    hide Doomed, Blind, Range.Goes, Timed, Range.Order;
  }

  /** Whoever refers to a doomed block is doomed, and does not linger. */
  lemma DoomedByAll(r: Range, stopOffset: nat, b: nat, l: nat)
    requires r.IsSound() && Doomed(r, stopOffset, l) && Noted(r, b, l)
    ensures Doomed(r, stopOffset, b) && !Lingers(r, stopOffset, b, l)
  {
    hide Range.IsSound, Range.Leads, Supported, Noted, Lingers;
    NotedLeads(r, b, l);
    StartSupported(r, stopOffset);
    if Lingers(r, stopOffset, b, l) { SupportedMore(r, stopOffset, {r.start}, b, l); }
    forall s | Supported(r, stopOffset, s)
      ensures b !in s
    {
      if b in s { SupportedMore(r, stopOffset, s, b, l); }
    }
  }

  lemma SupportedMore(r: Range, stopOffset: nat, kept: set<nat>, b: nat, l: nat)
    requires Supported(r, stopOffset, kept) && l in r.Leads()
    requires Noted(r, b, l) && (b in kept || Lingers(r, stopOffset, b, l))
    ensures Supported(r, stopOffset, kept + {l})
  {
    hide Lingers, Range.IsSound, Range.Leads, Range.Goes, Counted;
    var more := kept + {l};
    assert b in Remaining(r, stopOffset, more, l);
    forall k | k in more && k != r.start
      ensures Remaining(r, stopOffset, more, k) != {}
    {
      if k in kept { MoreRemain(r, stopOffset, kept, more, k); }
    }
  }

  /** The blocks that are left when some of those that can go have gone. */
  ghost predicate Thinned(r: Range, stopOffset: nat, keys: set<nat>) {
    && r.IsSound() && r.start in keys && keys <= r.Leads()
    && forall s | Supported(r, stopOffset, s) :: s <= keys
  }

  /** A block that can go next: all that refer to it have gone. */
  ghost predicate CanGo(r: Range, stopOffset: nat, keys: set<nat>, l: nat) {
    l in keys && l != r.start && forall b | Noted(r, b, l) :: b !in keys && !Lingers(r, stopOffset, b, l)
  }

  lemma CanGoIff(r: Range, stopOffset: nat, keys: set<nat>, l: nat)
    requires l in keys && l != r.start
    ensures CanGo(r, stopOffset, keys, l) <==> Remaining(r, stopOffset, keys, l) == {}
  {
    hide Lingers, Range.Goes, Range.Leads, Counted;
    forall b | Noted(r, b, l)
      ensures b in Remaining(r, stopOffset, keys, l) <==> b in keys || Lingers(r, stopOffset, b, l)
    {
    }
  }

  lemma Thins(r: Range, stopOffset: nat, keys: set<nat>, l: nat)
    requires Thinned(r, stopOffset, keys) && CanGo(r, stopOffset, keys, l)
    ensures Thinned(r, stopOffset, keys - {l})
  {
    hide Noted, Lingers, Range.IsSound, Range.Leads, CanGo, Remaining;
    CanGoThere(r, stopOffset, keys, l);
    CanGoIff(r, stopOffset, keys, l);
    forall s | Supported(r, stopOffset, s)
      ensures l !in s
    {
      if l in s { MoreRemain(r, stopOffset, s, keys, l); }
    }
  }

  lemma CanGoThere(r: Range, stopOffset: nat, keys: set<nat>, l: nat)
    requires CanGo(r, stopOffset, keys, l)
    ensures l in keys && l != r.start
  {
  }

  /** When none can go, exactly the others are doomed. */
  lemma ThinnedOut(r: Range, stopOffset: nat, keys: set<nat>)
    requires Thinned(r, stopOffset, keys) && forall l :: !CanGo(r, stopOffset, keys, l)
    ensures forall l :: Doomed(r, stopOffset, l) <==> l in r.Leads() && l !in keys
  {
    hide Range.IsSound, Range.Leads, CanGo, Remaining;
    forall l | l in keys && l != r.start
      ensures Remaining(r, stopOffset, keys, l) != {}
    {
      CanGoIff(r, stopOffset, keys, l);
    }
    assert Supported(r, stopOffset, keys);
  }

  /** The last turn among these referers. */
  lemma {:induction false} Latest(r: Range, pass: map<nat, nat>, noted: set<nat>, l: nat) returns (n: nat)
    requires noted <= pass.Keys
    ensures forall b | b in noted :: pass[b] + Lag(r, b, l) <= n
    ensures n != 0 ==> exists b :: b in noted && n == pass[b] + Lag(r, b, l)
    decreases noted
  {
    hide Lag;
    if noted == {} { return 0; }
    var b :| b in noted;
    n := Latest(r, pass, noted - {b}, l);
    if n < pass[b] + Lag(r, b, l) { n := pass[b] + Lag(r, b, l); }
  }

  ghost function Referers(r: Range, l: nat): set<nat> {
    set b | b in r.Leads() && Noted(r, b, l)
  }

  /** Every parse has a schedule. */
  lemma {:induction false} HasSchedule(r: Range, stopOffset: nat, keys: set<nat>, pass: map<nat, nat>)
    returns (whole: map<nat, nat>)
    requires Thinned(r, stopOffset, keys) && pass.Keys == r.Leads() - keys && Timed(r, pass)
    ensures IsSchedule(r, stopOffset, whole)
    decreases keys
  {
    hide Lag, Range.IsSound, Range.Leads, Lingers, CanGo, Supported, Doomed, Timed;
    if l :| CanGo(r, stopOffset, keys, l) {
      CanGoThere(r, stopOffset, keys, l);
      Thins(r, stopOffset, keys, l);
      var more := TimedMore(r, stopOffset, keys, pass, l);
      whole := HasSchedule(r, stopOffset, keys - {l}, more);
    } else {
      ThinnedOut(r, stopOffset, keys);
      whole := pass;
    }
  }

  lemma TimedMore(r: Range, stopOffset: nat, keys: set<nat>, pass: map<nat, nat>, l: nat) returns (more: map<nat, nat>)
    requires pass.Keys == r.Leads() - keys && keys <= r.Leads() && Timed(r, pass) && CanGo(r, stopOffset, keys, l)
    ensures more.Keys == r.Leads() - (keys - {l}) && Timed(r, more)
  {
    hide Lag, Range.Leads, Lingers, Range.Goes, Counted;
    var noted := Referers(r, l);
    assert noted <= pass.Keys;
    var n := Latest(r, pass, noted, l);
    more := pass[l := n];
    forall b, k | k in more && Noted(r, b, k)
      ensures b in more && more[b] + Lag(r, b, k) <= more[k]
    {
      if k == l { assert b in noted; }
    }
    forall k | k in more && more[k] != 0
      ensures exists b :: Noted(r, b, k) && b in more && more[k] == more[b] + Lag(r, b, k)
    {
      if k == l {
        var b :| b in noted && n == pass[b] + Lag(r, b, l);
        assert Noted(r, b, k) && b in more && more[k] == more[b] + Lag(r, b, k);
      } else {
        var b :| Noted(r, b, k) && b in pass && pass[k] == pass[b] + Lag(r, b, k);
        assert Noted(r, b, k) && b in more && more[k] == more[b] + Lag(r, b, k);
      }
    }
  }

  lemma ScheduleExists(r: Range, stopOffset: nat) returns (pass: map<nat, nat>)
    requires r.IsSound()
    ensures IsSchedule(r, stopOffset, pass)
  {
    hide Sound, LeaderSet, Lag;
    LeaderStart(r);
    pass := HasSchedule(r, stopOffset, r.Leads(), map[]);
  }

  /** And only one. */
  lemma ScheduleUnique(r: Range, stopOffset: nat, pass: map<nat, nat>, other: map<nat, nat>)
    requires r.IsSound() && IsSchedule(r, stopOffset, pass) && IsSchedule(r, stopOffset, other)
    ensures pass == other
  {
    hide Sound, LeaderSet, Lag, Timed;
    LeaderStart(r);
    SchedulesAgree(r, stopOffset, r.Leads(), pass, other);
  }

  lemma {:induction false} SchedulesAgree(r: Range, stopOffset: nat, keys: set<nat>, pass: map<nat, nat>,
                                          other: map<nat, nat>)
    requires Thinned(r, stopOffset, keys) && IsSchedule(r, stopOffset, pass) && IsSchedule(r, stopOffset, other)
    requires forall l | l in pass && l !in keys :: pass[l] == other[l]
    ensures forall l | l in pass :: pass[l] == other[l]
    decreases keys
  {
    hide Lag, Range.IsSound, Range.Leads, Lingers, CanGo, Supported, Doomed, Timed;
    if l :| CanGo(r, stopOffset, keys, l) {
      CanGoThere(r, stopOffset, keys, l);
      Thins(r, stopOffset, keys, l);
      if l in pass { AgreeNext(r, stopOffset, keys, pass, other, l); }
      SchedulesAgree(r, stopOffset, keys - {l}, pass, other);
    } else {
      ThinnedOut(r, stopOffset, keys);
    }
  }

  lemma AgreeNext(r: Range, stopOffset: nat, keys: set<nat>, pass: map<nat, nat>, other: map<nat, nat>, l: nat)
    requires Timed(r, pass) && Timed(r, other) && pass.Keys == other.Keys && CanGo(r, stopOffset, keys, l) && l in pass
    requires forall k | k in pass && k !in keys :: pass[k] == other[k]
    ensures pass[l] == other[l]
  {
    hide Lag, Noted, Lingers;
  }

  // ---- The parser on schedule ----

  /** At place p of pass n exactly the blocks are gone whose turn has come before. */
  ghost predicate OnSchedule(r: Range, pass: map<nat, nat>, keys: set<nat>, n: nat, p: nat) {
    forall l | l in pass :: l !in keys <==> Sooner(r, pass, l, n, p)
  }

  /** The parser erases the block at whose place it stands exactly in the pass of the schedule. */
  lemma TurnComes(r: Range, stopOffset: nat, blocks: Blocks, pass: map<nat, nat>, n: nat, b: nat)
    requires Pruned(r, stopOffset, blocks) && IsSchedule(r, stopOffset, pass) && b in blocks && b != r.start
    requires OnSchedule(r, pass, blocks.Keys, n, Place(r.Order(), b))
    ensures blocks[b].referers == {} <==> b in pass && pass[b] == n
  {
    hide Pruned, Doomed, Noted, Lingers, Remaining, Place;
    SoundOf(r, stopOffset, blocks);
    ReferersAre(r, stopOffset, blocks, b);
    CanGoIff(r, stopOffset, blocks.Keys, b);
    if blocks[b].referers == {} {
      ErasedIsDoomed(r, stopOffset, blocks, b);
    }
    if b in pass && pass[b] == n {
      forall c | Noted(r, c, b)
        ensures c !in blocks && !Lingers(r, stopOffset, c, b)
      {
        DoomedByAll(r, stopOffset, c, b);
      }
    }
  }

  lemma StartStays(r: Range, stopOffset: nat, pass: map<nat, nat>)
    requires IsSchedule(r, stopOffset, pass) && r.IsSound()
    ensures r.start !in pass
  {
    hide Range.IsSound, Range.Leads, Timed;
    StartSupported(r, stopOffset);
  }

  /** When its turn comes, the target of a block is missing exactly if the schedule strands the block. */
  lemma StrandedIffMissed(r: Range, stopOffset: nat, blocks: Blocks, pass: map<nat, nat>, n: nat, b: nat)
    requires Pruned(r, stopOffset, blocks) && IsSchedule(r, stopOffset, pass) && b in blocks && b != r.start
    requires blocks[b].referers == {} && b in pass && pass[b] == n
    requires OnSchedule(r, pass, blocks.Keys, n, Place(r.Order(), b))
    ensures blocks[b].HasTerminator()
    ensures Misses(blocks, b) <==> exists t :: IsStranded(r, pass, b, t)
    ensures Misses(blocks, b) ==> ParserStrands(r, stopOffset)
  {
    hide Pruned, Supported, Place, Range.Order, Timed, Blind, Range.Goes, Range.Leads;
    EraseFinds(r, stopOffset, blocks, b);
    SoundOf(r, stopOffset, blocks);
    if Misses(blocks, b) {
      MissingIsBlind(r, stopOffset, blocks, b);
      assert IsStranded(r, pass, b, blocks[b].Last().extra);
    }
    if t :| IsStranded(r, pass, b, t) {
      BlindGoes(r, b);
    }
  }

  /** If the schedule strands only blocks that are left over, the parser has failed nowhere. */
  lemma NoneStrands(r: Range, stopOffset: nat, blocks: Blocks, pass: map<nat, nat>)
    requires Pruned(r, stopOffset, blocks) && IsLargest(r, stopOffset, blocks.Keys)
    requires IsSchedule(r, stopOffset, pass) && forall b, t | IsStranded(r, pass, b, t) :: b in blocks
    ensures !ParserStrands(r, stopOffset)
  {
    hide Pruned, Supported, Place, Range.Order, Timed, Blind, Range.Goes, Range.Leads;
    SoundOf(r, stopOffset, blocks);
    if ParserStrands(r, stopOffset) {
      var other, b, t :| IsSchedule(r, stopOffset, other) && IsStranded(r, other, b, t);
      ScheduleUnique(r, stopOffset, pass, other);
    }
  }

  lemma ReferersAre(r: Range, stopOffset: nat, blocks: Blocks, b: nat)
    requires Pruned(r, stopOffset, blocks) && b in blocks
    ensures blocks[b].referers == Remaining(r, stopOffset, blocks.Keys, b)
  {
  }

  // ---- Which reachable blocks are left ----

  ghost predicate IsPath(r: Range, path: seq<nat>) {
    path != [] && path[0] == r.start && forall i | 0 < i < |path| :: path[i] in r.Goes(path[i - 1])
  }

  /** The blocks that some path of branches from the start leads to. */
  ghost function Reached(r: Range): set<nat> {
    set l | l in r.Leads() && exists path :: IsPath(r, path) && path[|path| - 1] == l
  }

  lemma ReachedOn(r: Range, b: nat)
    requires r.IsSound()
    ensures r.start in Reached(r) && (b in Reached(r) ==> r.Goes(b) <= Reached(r))
  {
    hide Sound, LeaderSet, Successors;
    LeaderStart(r);
    assert IsPath(r, [r.start]);
    if b in Reached(r) {
      var path :| IsPath(r, path) && path[|path| - 1] == b;
      GoesByLast(r, b);
      forall l | l in r.Goes(b)
        ensures l in Reached(r)
      {
        var more := path + [l];
        assert IsPath(r, more) && more[|more| - 1] == l;
      }
    }
  }

  lemma PathTo(r: Range, l: nat) returns (path: seq<nat>)
    requires l in Reached(r)
    ensures IsPath(r, path) && path != [] && path[|path| - 1] == l
  {
    path :| IsPath(r, path) && path[|path| - 1] == l;
  }

  /** Following branches from the start stays among the blocks that are there, unless from a
      block that is noted nowhere. */
  lemma {:induction false} PathKept(r: Range, stopOffset: nat, blocks: Blocks, path: seq<nat>)
    requires Pruned(r, stopOffset, blocks) && IsPath(r, path)
    requires forall b | Blind(r, b) && b in Reached(r) :: r.Goes(b) <= blocks.Keys
    ensures path[|path| - 1] in blocks && path[|path| - 1] in Reached(r)
    decreases |path|
  {
    hide Range.IsSound, Range.Holds, Range.Goes, Remaining, Counted, Supported, Reached, Range.Leads;
    var n := |path| - 1;
    if n > 0 {
      assert IsPath(r, path[..n]);
      PathKept(r, stopOffset, blocks, path[..n]);
      var b := path[n - 1];
      ReachedOn(r, b);
      assert path[n] in r.Goes(b) && b in r.Leads();
      if !Blind(r, b) { assert Noted(r, b, path[n]); }
    } else {
      ReachedOn(r, r.start);
    }
  }

  /** Where a reachable block goes that is noted nowhere, other blocks refer to as well: it goes
      into a set that wiping cannot touch. */
  ghost predicate BackedUp(r: Range, stopOffset: nat) {
    forall b | Blind(r, b) && b in Reached(r) :: exists s :: Supported(r, stopOffset, s) && r.Goes(b) <= s
  }

  /** Every reachable block outlasts the wiping exactly if the target of every reachable block
      that is noted nowhere has other support. */
  lemma ReachableKept(r: Range, stopOffset: nat, blocks: Blocks)
    requires Pruned(r, stopOffset, blocks)
    ensures Wiped(r, blocks) ==> (Reached(r) <= blocks.Keys <==> BackedUp(r, stopOffset))
    ensures Reached(r) <= blocks.Keys <==> forall b | Blind(r, b) && b in Reached(r) :: r.Goes(b) <= blocks.Keys
    ensures BackedUp(r, stopOffset) || LastBranchIsLast(r) ==> Reached(r) <= blocks.Keys
  {
    hide Sound, Range.Holds, Range.Goes, Remaining, Counted, Supported, Range.Leads, IsPath, Pruned, LastBranchIsLast,
         Blind, Wiped;
    if Wiped(r, blocks) { WipedIsLargest(r, stopOffset, blocks); }
    SupportedStays(r, stopOffset, blocks);
    SoundOf(r, stopOffset, blocks);
    NoneBlind(r);
    if forall b | Blind(r, b) && b in Reached(r) :: r.Goes(b) <= blocks.Keys {
      forall l | l in Reached(r)
        ensures l in blocks
      {
        var path := PathTo(r, l);
        PathKept(r, stopOffset, blocks, path);
      }
    }
    if Reached(r) <= blocks.Keys {
      forall b | Blind(r, b) && b in Reached(r)
        ensures r.Goes(b) <= blocks.Keys
      {
        ReachedOn(r, b);
      }
    }
  }

  lemma SupportedStays(r: Range, stopOffset: nat, blocks: Blocks)
    requires Pruned(r, stopOffset, blocks)
    ensures forall s | Supported(r, stopOffset, s) :: s <= blocks.Keys
  {
  }

  lemma SoundOf(r: Range, stopOffset: nat, blocks: Blocks)
    requires Pruned(r, stopOffset, blocks)
    ensures r.IsSound() && blocks.Keys <= r.Leads()
  {
  }

  // ---- Which referers are left ----

  /** A block that ends in a conditional branch to somewhere else than the block it skips to. */
  ghost predicate Forks(r: Range, b: nat) {
    b in r.Leads() && r.Holds(b) != [] && r.Holds(b)[|r.Holds(b)| - 1].IsConditional() && r.Leaves(b).By?
    && r.Holds(b)[|r.Holds(b)| - 1].extra != After(r.code, r.Leaves(b).pc)
  }

  /** Without a stop offset no forking block may be erased, and the block that is noted
      nowhere may not be left beside its target. */
  ghost predicate Clean(r: Range, stopOffset: nat, kept: set<nat>) {
    && (stopOffset != 0 || forall b | b in r.Leads() && Forks(r, b) :: b in kept)
    && forall b | b in kept && Blind(r, b) :: r.Goes(b) !! kept
  }

  ghost predicate ExactAt(r: Range, blocks: Blocks, l: nat)
    requires l in blocks
  {
    blocks[l].referers == set b | b in blocks && l in r.Goes(b)
  }

  /** After wiping, every block knows exactly the blocks left that go to it if and only if the
      largest set with referers, which is what is left, is clean. */
  lemma ExactAfterWiping(r: Range, stopOffset: nat, blocks: Blocks)
    requires Pruned(r, stopOffset, blocks) && Wiped(r, blocks)
    ensures IsLargest(r, stopOffset, blocks.Keys)
    ensures (forall l | l in blocks :: ExactAt(r, blocks, l)) <==> Clean(r, stopOffset, blocks.Keys)
  {
    hide Pruned, Range.IsSound, Range.Holds, Range.Goes, Range.Leads, Forks, Blind, ExactAt, Wiped;
    WipedIsLargest(r, stopOffset, blocks);
    SoundOf(r, stopOffset, blocks);
    if Clean(r, stopOffset, blocks.Keys) {
      forall l | l in blocks
        ensures ExactAt(r, blocks, l)
      {
        CleanIsExact(r, stopOffset, blocks, l);
      }
    }
    if forall l | l in blocks :: ExactAt(r, blocks, l) {
      if stopOffset == 0 {
        forall b | b in r.Leads() && Forks(r, b)
          ensures b in blocks
        {
          if b !in blocks { ForkLingers(r, blocks, b); }
        }
      }
      forall b | b in blocks && Blind(r, b)
        ensures r.Goes(b) !! blocks.Keys
      {
        BlindIsMissed(r, stopOffset, blocks, b);
      }
    }
  }

  lemma CleanIsExact(r: Range, stopOffset: nat, blocks: Blocks, l: nat)
    requires Pruned(r, stopOffset, blocks) && Clean(r, stopOffset, blocks.Keys) && l in blocks
    ensures ExactAt(r, blocks, l)
  {
    hide Sound, LeaderSet, Successors, ExitOf, Body, Counted, Supported;
    forall b
      ensures b in blocks[l].referers <==> b in blocks && l in r.Goes(b)
    {
      if b in r.Leads() && l in r.Goes(b) {
        GoesByLast(r, b);
        assert b in Remaining(r, stopOffset, blocks.Keys, l) <==>
          Noted(r, b, l) && (b in blocks || Lingers(r, stopOffset, b, l));
        if Lingers(r, stopOffset, b, l) { assert Forks(r, b); }
        if b in blocks { assert !Blind(r, b); }
      }
    }
  }

  /** An erased forking block lingers at the block it skipped to, and keeps it. */
  lemma ForkLingers(r: Range, blocks: Blocks, b: nat)
    requires Pruned(r, 0, blocks) && Wiped(r, blocks) && Forks(r, b) && b !in blocks
    ensures exists l :: l in blocks && !ExactAt(r, blocks, l)
  {
    hide Range.IsSound, Range.Leads, Range.Holds, Range.Goes, Lingers, Noted, Forks, Supported;
    var skip := ForkNotes(r, b);
    NotedLeads(r, b, skip);
    LingeringKeeps(r, blocks, b, skip);
    assert b in Remaining(r, 0, blocks.Keys, skip);
    assert !ExactAt(r, blocks, skip);
  }

  lemma ForkNotes(r: Range, b: nat) returns (skip: nat)
    requires r.IsSound() && Forks(r, b)
    ensures Noted(r, b, skip) && Lingers(r, 0, b, skip) && skip in r.Leads()
  {
    hide Sound, LeaderSet, Successors, ExitOf, Body;
    GoesByLast(r, b);
    skip := After(r.code, r.Leaves(b).pc);
  }

  lemma LingeringKeeps(r: Range, blocks: Blocks, b: nat, l: nat)
    requires Pruned(r, 0, blocks) && Wiped(r, blocks) && Noted(r, b, l) && Lingers(r, 0, b, l) && l in r.Leads()
    ensures l in blocks
  {
    hide Lingers, Noted, Range.IsSound, Range.Leads, Range.Holds;
    WipedIsLargest(r, 0, blocks);
    var more := blocks.Keys + {l};
    NotedLeads(r, b, l);
    assert b in Remaining(r, 0, more, l);
    forall k | k in more && k != r.start
      ensures Remaining(r, 0, more, k) != {}
    {
      if k in blocks { MoreRemain(r, 0, blocks.Keys, more, k); }
    }
    assert Supported(r, 0, more);
  }

  lemma NotedByNone(r: Range, stopOffset: nat, blocks: Blocks, l: nat)
    requires Pruned(r, stopOffset, blocks) && l in blocks && forall b | b in r.Leads() :: !Noted(r, b, l)
    ensures blocks[l].referers == {}
  {
    hide Noted, Range.IsSound;
  }

  lemma NotedLeads(r: Range, b: nat, l: nat)
    requires Noted(r, b, l)
    ensures b in r.Leads()
  {
  }

  lemma BlindIsMissed(r: Range, stopOffset: nat, blocks: Blocks, b: nat)
    requires Pruned(r, stopOffset, blocks) && b in blocks && Blind(r, b)
    requires forall l | l in blocks :: ExactAt(r, blocks, l)
    ensures r.Goes(b) !! blocks.Keys
  {
    hide Pruned, Blind, ExactAt, Range.Goes;
    forall l | l in r.Goes(b)
      ensures l !in blocks
    {
      if l in blocks { BlindMakesInexact(r, stopOffset, blocks, b, l); }
    }
  }

  lemma BlindMakesInexact(r: Range, stopOffset: nat, blocks: Blocks, b: nat, l: nat)
    requires Pruned(r, stopOffset, blocks) && b in blocks && Blind(r, b) && l in blocks && l in r.Goes(b)
    ensures !ExactAt(r, blocks, l)
  {
    hide Sound, LeaderSet, Successors, ExitOf, Body, Supported, Lingers, Counted;
    assert !Noted(r, b, l) && b !in blocks[l].referers;
    assert b in set c | c in blocks && l in r.Goes(c);
  }

  // ---- Runs ----

  /**
   * The first n instructions that the raw code executes from pc on. A conditional branch is
   * taken as `taken` says for the number of instructions still to be executed.
   */
  ghost function RawRun(r: Range, pc: nat, taken: nat -> bool, n: nat): seq<Instruction>
    decreases n
  {
    if n == 0 || pc >= r.stop then []
    else
      var i := At(r.code, pc);
      [i] + if i.IsReturn() then [] else RawRun(r, RawNext(r, pc, taken(n)), taken, n - 1)
  }

  /** Where the raw code continues. */
  function RawNext(r: Range, pc: nat, taken: bool): nat {
    var i := At(r.code, pc);
    if i.IsConditional() then (if taken then i.extra else After(r.code, pc))
    else if i.IsBranch() then i.extra
    else Step(r.code, pc)
  }

  /** The offset of the k-th instruction of a block. */
  function OffsetOf(code: Code, leader: nat, k: nat): nat
    decreases k
  {
    if k == 0 then leader else OffsetOf(code, Step(code, leader), k - 1)
  }

  /** The k-th instruction of a block is not from the code: it is the branch that links the block to the next. */
  ghost predicate IsLink(r: Range, blocks: Blocks, leader: nat, k: nat) {
    k > 0 && OffsetOf(r.code, leader, k) in blocks
  }

  /**
   * The first n instructions of the code that the blocks execute from the k-th instruction of
   * a block on; inserted links are followed and not counted. A branch not taken leads to the
   * block with the next offset.
   */
  ghost function BlockRun(r: Range, blocks: Blocks, leader: nat, k: nat, taken: nat -> bool, n: nat): seq<Instruction>
    decreases n, if k > 0 then 1 else 0
  {
    if n == 0 || leader !in blocks || k >= |blocks[leader].instructions| then []
    else
      var i := blocks[leader].instructions[k];
      if IsLink(r, blocks, leader, k) then BlockRun(r, blocks, i.extra, 0, taken, n)
      else [i] + if i.IsReturn() then []
        else if i.IsConditional() && !taken(n)
        then BlockRun(r, blocks, NextBlock(blocks.Keys, leader + 1, r.stop), 0, taken, n - 1)
        else if i.IsBranch() then BlockRun(r, blocks, i.extra, 0, taken, n - 1)
        else BlockRun(r, blocks, leader, k + 1, taken, n - 1)
  }

  /** What stands at the k-th place of a block. */
  lemma {:induction false} BodyAt(r: Range, pc: nat, first: bool, k: nat)
    requires r.IsSound() && r.Has(pc) && k < |Body(r.code, r.Leads(), pc, r.stop, first)|
    ensures var b := Body(r.code, r.Leads(), pc, r.stop, first); var p := OffsetOf(r.code, pc, k);
      && r.Has(p)
      && if (k > 0 || !first) && p in r.Leads() then
           k == |b| - 1 && b[k] == Link(p) && ExitOf(r.code, r.Leads(), pc, r.stop, first) == Into(p)
         else
           b[k] == At(r.code, p)
           && (if b[k].IsTerminator() then k == |b| - 1 && ExitOf(r.code, r.Leads(), pc, r.stop, first) == By(p)
               else k + 1 < |b|)
    decreases k
  {
    hide Sound, LeaderSet, Boundary, Steps, At, Step;
    StepStays(r, pc);
    if (first || pc !in r.Leads()) && !At(r.code, pc).IsTerminator() {
      var next := Step(r.code, pc);
      if k > 0 { BodyAt(r, next, false, k - 1); } else { BodyEnds(r, next, false); }
    }
  }

  /** What follows the k-th instruction of a block that is still there. */
  lemma BlockNext(r: Range, stopOffset: nat, blocks: Blocks, leader: nat, k: nat, taken: bool)
    requires Pruned(r, stopOffset, blocks) && leader in blocks && k < |blocks[leader].instructions|
    ensures var i := blocks[leader].instructions[k]; var p := OffsetOf(r.code, leader, k);
      && p < r.stop
      && if IsLink(r, blocks, leader, k) then i.extra == p && r.Goes(leader) == {p}
         else
           && i == At(r.code, p)
           && (!i.IsTerminator() ==> k + 1 < |blocks[leader].instructions|)
           && (!i.IsTerminator() ==> OffsetOf(r.code, leader, k + 1) == RawNext(r, p, taken))
           && (i.IsReturn() ==> r.Goes(leader) == {})
           && (i.IsBranch() ==> r.Goes(leader) == {RawNext(r, p, true), RawNext(r, p, false)})
           && (i.IsConditional() ==> !Blind(r, leader))
           && (i.IsConditional() && !taken ==> RawNext(r, p, taken) == NextBlock(blocks.Keys, leader + 1, r.stop))
  {
    hide Sound, LeaderSet, Boundary, Steps, At, Step, Body, ExitOf, Successors, Lingers, Remaining, Counted, Supported;
    LeaderHas(r, leader);
    BodyAt(r, leader, true, k);
    OffsetAfter(r.code, leader, k);
    StepStays(r, OffsetOf(r.code, leader, k));
    GoesByLast(r, leader);
    if r.Leaves(leader).Into? { IntoIsNoted(r, leader); }
    if Blind(r, leader) { BlindGoes(r, leader); }
    var i, p := blocks[leader].instructions[k], OffsetOf(r.code, leader, k);
    if i.IsConditional() {
      SkipIsNext(r, leader);
      assert Noted(r, leader, After(r.code, p));
      NextBlockIs(blocks.Keys, leader + 1, r.stop, After(r.code, p));
    }
  }

  lemma IntoIsNoted(r: Range, leader: nat)
    requires r.IsSound() && leader in r.Leads() && r.Leaves(leader).Into?
    ensures Noted(r, leader, r.Leaves(leader).leader) && r.Goes(leader) == {r.Leaves(leader).leader}
  {
    LeaderHas(r, leader);
    ExitFits(r, leader, true);
  }

  lemma {:induction false} OffsetAfter(code: Code, leader: nat, k: nat)
    ensures OffsetOf(code, leader, k + 1) == Step(code, OffsetOf(code, leader, k))
    decreases k
  {
    if k > 0 { OffsetAfter(code, Step(code, leader), k - 1); }
  }

  /** One step of both runs. */
  lemma BothStep(r: Range, stopOffset: nat, blocks: Blocks, leader: nat, k: nat, taken: nat -> bool, n: nat)
    requires Pruned(r, stopOffset, blocks) && leader in blocks && k < |blocks[leader].instructions| && n > 0
    ensures var i := blocks[leader].instructions[k]; var p := OffsetOf(r.code, leader, k);
      if IsLink(r, blocks, leader, k)
      then BlockRun(r, blocks, leader, k, taken, n) == BlockRun(r, blocks, p, 0, taken, n)
      else
        && (i.IsBranch() ==>
              && BlockRun(r, blocks, leader, k, taken, n) ==
                [i] + BlockRun(r, blocks, RawNext(r, p, taken(n)), 0, taken, n - 1)
              && RawRun(r, p, taken, n) == [i] + RawRun(r, RawNext(r, p, taken(n)), taken, n - 1))
        && (!i.IsTerminator() ==>
              && BlockRun(r, blocks, leader, k, taken, n) == [i] + BlockRun(r, blocks, leader, k + 1, taken, n - 1)
              && RawRun(r, p, taken, n) == [i] + RawRun(r, OffsetOf(r.code, leader, k + 1), taken, n - 1))
  {
    hide Pruned, OffsetOf, IsLink, RawNext, Range.Goes, NextBlock, Blind;
    BlockNext(r, stopOffset, blocks, leader, k, taken(n));
    BranchTarget(r, OffsetOf(r.code, leader, k), taken(n));
  }

  /** Both stop at a return. */
  lemma BothReturn(r: Range, stopOffset: nat, blocks: Blocks, leader: nat, k: nat, taken: nat -> bool, n: nat)
    requires Pruned(r, stopOffset, blocks) && leader in blocks && k < |blocks[leader].instructions|
    requires !IsLink(r, blocks, leader, k) && blocks[leader].instructions[k].IsReturn()
    ensures BlockRun(r, blocks, leader, k, taken, n) == RawRun(r, OffsetOf(r.code, leader, k), taken, n)
  {
    hide Pruned, OffsetOf, IsLink, RawNext, Range.Goes, NextBlock, Blind;
    BlockNext(r, stopOffset, blocks, leader, k, true);
  }

  lemma NoneRun(r: Range, blocks: Blocks, leader: nat, k: nat, taken: nat -> bool)
    ensures BlockRun(r, blocks, leader, k, taken, 0) == RawRun(r, OffsetOf(r.code, leader, k), taken, 0)
  {
  }

  /** The blocks execute the same instructions of the code as the raw code does, whatever
      branches are taken, if no reachable block is missing. */
  lemma {:induction false} RunsAlike(r: Range, stopOffset: nat, blocks: Blocks, leader: nat, k: nat, taken: nat -> bool,
                                     n: nat)
    requires Pruned(r, stopOffset, blocks) && Reached(r) <= blocks.Keys
    requires leader in Reached(r) && leader in blocks && k < |blocks[leader].instructions|
    ensures BlockRun(r, blocks, leader, k, taken, n) == RawRun(r, OffsetOf(r.code, leader, k), taken, n)
    decreases n, if k > 0 then 1 else 0
  {
    hide Pruned, OffsetOf, IsLink, RawNext, Reached, Range.Goes, NextBlock, BlockRun, RawRun, Blind;
    if n == 0 {
      NoneRun(r, blocks, leader, k, taken);
    } else {
      BothStep(r, stopOffset, blocks, leader, k, taken, n);
      ReachedNext(r, stopOffset, blocks, leader);
      BlockNext(r, stopOffset, blocks, leader, k, taken(n));
      var i := blocks[leader].instructions[k];
      var p := OffsetOf(r.code, leader, k);
      if IsLink(r, blocks, leader, k) {
        LinkLater(r, blocks, leader, k);
        StartsFull(r, stopOffset, blocks, p);
        RunsAlike(r, stopOffset, blocks, p, 0, taken, n);
      } else if i.IsBranch() {
        var to := RawNext(r, p, taken(n));
        StartsFull(r, stopOffset, blocks, to);
        RunsAlike(r, stopOffset, blocks, to, 0, taken, n - 1);
      } else if i.IsReturn() {
        BothReturn(r, stopOffset, blocks, leader, k, taken, n);
      } else {
        RunsAlike(r, stopOffset, blocks, leader, k + 1, taken, n - 1);
      }
    }
  }

  lemma ReachedNext(r: Range, stopOffset: nat, blocks: Blocks, leader: nat)
    requires Pruned(r, stopOffset, blocks) && leader in Reached(r) && Reached(r) <= blocks.Keys
    ensures r.Goes(leader) <= blocks.Keys && forall l | l in r.Goes(leader) :: l in Reached(r) && l in blocks
  {
    hide Pruned, Reached;
    SoundOf(r, stopOffset, blocks);
    ReachedOn(r, leader);
  }

  lemma LinkLater(r: Range, blocks: Blocks, leader: nat, k: nat)
    requires IsLink(r, blocks, leader, k)
    ensures k > 0 && OffsetOf(r.code, leader, k) in blocks
  {
  }

  lemma BranchTarget(r: Range, p: nat, taken: bool)
    ensures At(r.code, p).IsBranch() && (taken || !At(r.code, p).IsConditional()) ==>
              RawNext(r, p, taken) == At(r.code, p).extra
  {
  }

  lemma StartsFull(r: Range, stopOffset: nat, blocks: Blocks, l: nat)
    requires Pruned(r, stopOffset, blocks) && l in blocks
    ensures blocks[l].instructions != [] && OffsetOf(r.code, l, 0) == l
  {
    GoesByLast(r, l);
  }

  /** From the start, too: what pruning leaves is the program. */
  lemma ParsedRunsAlike(r: Range, stopOffset: nat, blocks: Blocks, taken: nat -> bool, n: nat)
    requires Pruned(r, stopOffset, blocks) && Reached(r) <= blocks.Keys
    ensures BlockRun(r, blocks, r.start, 0, taken, n) == RawRun(r, r.start, taken, n)
  {
    hide Pruned, Reached, OffsetOf;
    SoundOf(r, stopOffset, blocks);
    ReachedOn(r, r.start);
    StartsFull(r, stopOffset, blocks, r.start);
    RunsAlike(r, stopOffset, blocks, r.start, 0, taken, n);
  }

  // ---- A missing block shows ----

  /** Only the decisions that are still to be made matter. */
  lemma {:induction false} RawRunSame(r: Range, pc: nat, taken: nat -> bool, taken': nat -> bool, n: nat)
    requires forall i: nat | i <= n :: taken(i) == taken'(i)
    ensures RawRun(r, pc, taken, n) == RawRun(r, pc, taken', n)
    decreases n
  {
    hide RawNext;
    if n > 0 && pc < r.stop && !At(r.code, pc).IsReturn() {
      RawRunSame(r, RawNext(r, pc, taken(n)), taken, taken', n - 1);
    }
  }

  lemma {:induction false} BlockRunSame(r: Range, blocks: Blocks, leader: nat, k: nat, taken: nat -> bool,
                                        taken': nat -> bool, n: nat)
    requires forall i: nat | i <= n :: taken(i) == taken'(i)
    ensures BlockRun(r, blocks, leader, k, taken, n) == BlockRun(r, blocks, leader, k, taken', n)
    decreases n, if k > 0 then 1 else 0
  {
    hide OffsetOf, NextBlock;
    if n > 0 && leader in blocks && k < |blocks[leader].instructions| {
      var i := blocks[leader].instructions[k];
      if IsLink(r, blocks, leader, k) {
        BlockRunSame(r, blocks, i.extra, 0, taken, taken', n);
      } else if i.IsConditional() && !taken(n) {
        BlockRunSame(r, blocks, NextBlock(blocks.Keys, leader + 1, r.stop), 0, taken, taken', n - 1);
      } else if i.IsBranch() {
        BlockRunSame(r, blocks, i.extra, 0, taken, taken', n - 1);
      } else if !i.IsReturn() {
        BlockRunSame(r, blocks, leader, k + 1, taken, taken', n - 1);
      }
    }
  }

  /** A way of branches through blocks that are there to one that is not. */
  ghost predicate LeadsOut(r: Range, blocks: Blocks, path: seq<nat>) {
    && |path| > 1 && path[|path| - 1] !in blocks
    && (forall i | 0 <= i < |path| - 1 :: path[i] in blocks)
    && forall i | 0 < i < |path| :: path[i] in r.Goes(path[i - 1])
  }

  lemma LeadsOn(r: Range, blocks: Blocks, path: seq<nat>)
    requires LeadsOut(r, blocks, path) && path[1] in blocks
    ensures |path| > 2 && LeadsOut(r, blocks, path[1..])
  {
    hide Range.Goes;
  }

  /** Only the block that is noted nowhere leads to one that is not there. */
  lemma OutIsBlind(r: Range, stopOffset: nat, blocks: Blocks, b: nat, l: nat)
    requires Pruned(r, stopOffset, blocks) && b in blocks && l in r.Goes(b) && l !in blocks
    ensures Blind(r, b) && l < r.stop
  {
    hide Sound, LeaderSet, Successors, Counted, Supported, Remaining, Body, ExitOf;
    assert !Noted(r, b, l);
    GoesByLast(r, b);
    LeaderHas(r, l);
  }

  /** With the right decisions the blocks go on along the path and stop where a block is missing. */
  lemma {:induction false} RunDiffers(r: Range, stopOffset: nat, blocks: Blocks, path: seq<nat>, k: nat)
    returns (taken: nat -> bool, n: nat)
    requires Pruned(r, stopOffset, blocks) && LeadsOut(r, blocks, path) && |path| > 1 && path[0] in blocks
    requires k < |blocks[path[0]].instructions|
    ensures BlockRun(r, blocks, path[0], k, taken, n) != RawRun(r, OffsetOf(r.code, path[0], k), taken, n)
    decreases |path|, |blocks[path[0]].instructions| - k + 1
  {
    hide Pruned, OffsetOf, IsLink, RawNext, Range.Goes, NextBlock, LeadsOut, Blind, BlockRun, RawRun;
    var leader := path[0];
    BlockNext(r, stopOffset, blocks, leader, k, true);
    PathNext(r, blocks, path);
    var i, p := blocks[leader].instructions[k], OffsetOf(r.code, leader, k);
    if IsLink(r, blocks, leader, k) {
      LinkLater(r, blocks, leader, k);
      taken, n := AtNext(r, stopOffset, blocks, path);
      StartsFull(r, stopOffset, blocks, p);
      if n == 0 { NoneRun(r, blocks, p, 0, taken); }
      BothStep(r, stopOffset, blocks, leader, k, taken, n);
    } else if i.IsBranch() {
      taken, n := BranchDiffers(r, stopOffset, blocks, path, k);
    } else {
      var m;
      taken, m := RunDiffers(r, stopOffset, blocks, path, k + 1);
      n := m + 1;
      BothStep(r, stopOffset, blocks, leader, k, taken, n);
      Behind(i, BlockRun(r, blocks, leader, k + 1, taken, m), RawRun(r, OffsetOf(r.code, leader, k + 1), taken, m));
    }
  }

  lemma Behind(i: Instruction, a: seq<Instruction>, b: seq<Instruction>)
    requires a != b
    ensures [i] + a != [i] + b
  {
    assert ([i] + a)[1..] == a && ([i] + b)[1..] == b;
  }

  lemma {:induction false} BranchDiffers(r: Range, stopOffset: nat, blocks: Blocks, path: seq<nat>, k: nat)
    returns (taken: nat -> bool, n: nat)
    requires Pruned(r, stopOffset, blocks) && LeadsOut(r, blocks, path) && |path| > 1 && path[0] in blocks
    requires k < |blocks[path[0]].instructions|
    requires !IsLink(r, blocks, path[0], k) && blocks[path[0]].instructions[k].IsBranch()
    ensures BlockRun(r, blocks, path[0], k, taken, n) != RawRun(r, OffsetOf(r.code, path[0], k), taken, n)
    decreases |path|, 1
  {
    hide Pruned, OffsetOf, IsLink, RawNext, Range.Goes, NextBlock, LeadsOut, Blind, BlockRun, RawRun;
    var leader := path[0];
    var p := OffsetOf(r.code, leader, k);
    BlockNext(r, stopOffset, blocks, leader, k, true);
    PathNext(r, blocks, path);
    if path[1] in blocks {
      var later, m := AtNext(r, stopOffset, blocks, path);
      taken, n := Deciding(later, m + 1, path[1] == RawNext(r, p, true)), m + 1;
      RawRunSame(r, path[1], later, taken, m);
      BlockRunSame(r, blocks, path[1], 0, later, taken, m);
    } else {
      OutIsBlind(r, stopOffset, blocks, leader, path[1]);
      var to := path[1] == RawNext(r, p, true);
      taken, n := (_: nat) => to, 2;
      MissingEnds(r, blocks, path[1], taken);
    }
    BothStep(r, stopOffset, blocks, leader, k, taken, n);
    Behind(blocks[leader].instructions[k], BlockRun(r, blocks, path[1], 0, taken, n - 1),
           RawRun(r, path[1], taken, n - 1));
  }

  lemma PathNext(r: Range, blocks: Blocks, path: seq<nat>)
    requires LeadsOut(r, blocks, path)
    ensures |path| > 1 && path[1] in r.Goes(path[0])
  {
  }

  /** The same from the start of the next block of the path. */
  lemma {:induction false} AtNext(r: Range, stopOffset: nat, blocks: Blocks, path: seq<nat>)
    returns (taken: nat -> bool, n: nat)
    requires Pruned(r, stopOffset, blocks) && LeadsOut(r, blocks, path) && path[1] in blocks
    ensures BlockRun(r, blocks, path[1], 0, taken, n) != RawRun(r, path[1], taken, n)
    decreases |path|, 0
  {
    hide Pruned, OffsetOf, BlockRun, RawRun, LeadsOut;
    PathNext(r, blocks, path);
    LeadsOn(r, blocks, path);
    StartsFull(r, stopOffset, blocks, path[1]);
    taken, n := RunDiffers(r, stopOffset, blocks, path[1..], 0);
  }

  function Deciding(taken: nat -> bool, n: nat, now: bool): nat -> bool {
    (i: nat) => if i == n then now else taken(i)
  }

  lemma MissingEnds(r: Range, blocks: Blocks, l: nat, taken: nat -> bool)
    requires l !in blocks && l < r.stop
    ensures BlockRun(r, blocks, l, 0, taken, 1) == [] && RawRun(r, l, taken, 1) != []
  {
  }

  lemma {:induction false} FirstMissing(r: Range, blocks: Blocks, path: seq<nat>) returns (out: seq<nat>)
    requires IsPath(r, path) && path[0] in blocks && path[|path| - 1] !in blocks
    ensures LeadsOut(r, blocks, out) && |out| > 1 && out[0] == path[0]
    decreases |path|
  {
    hide Range.Goes;
    var n := |path| - 1;
    if path[n - 1] in blocks {
      if forall i | 0 <= i < n :: path[i] in blocks {
        out := path;
      } else {
        var i :| 0 <= i < n && path[i] !in blocks;
        out := FirstMissing(r, blocks, path[..i + 1]);
      }
    } else {
      out := FirstMissing(r, blocks, path[..n]);
    }
  }

  /** The blocks execute what the raw code executes, whatever branches are taken and for however long. */
  ghost predicate RunsTheSame(r: Range, blocks: Blocks) {
    forall taken: nat -> bool, n: nat :: BlockRun(r, blocks, r.start, 0, taken, n) == RawRun(r, r.start, taken, n)
  }

  /** The blocks that wiping leaves mean the same as the code exactly if where a reachable
      block goes that is noted nowhere has other support, so that no reachable block is missing. */
  lemma MeansTheSameIff(r: Range, stopOffset: nat, blocks: Blocks)
    requires Pruned(r, stopOffset, blocks)
    ensures Wiped(r, blocks) ==> (RunsTheSame(r, blocks) <==> BackedUp(r, stopOffset))
    ensures RunsTheSame(r, blocks) <==> Reached(r) <= blocks.Keys
  {
    hide Pruned, Reached, BlockRun, RawRun, IsPath, LeadsOut, OffsetOf, BackedUp, Wiped, Blind, LastBranchIsLast;
    ReachableKept(r, stopOffset, blocks);
    StartThere(r, stopOffset, blocks);
    StartsFull(r, stopOffset, blocks, r.start);
    if Reached(r) <= blocks.Keys {
      forall taken: nat -> bool, n: nat
        ensures BlockRun(r, blocks, r.start, 0, taken, n) == RawRun(r, r.start, taken, n)
      {
        ParsedRunsAlike(r, stopOffset, blocks, taken, n);
      }
    } else {
      var l :| l in Reached(r) && l !in blocks;
      var path := PathTo(r, l);
      PathStarts(r, path);
      var out := FirstMissing(r, blocks, path);
      var taken, n := RunDiffers(r, stopOffset, blocks, out, 0);
    }
  }

  lemma PathStarts(r: Range, path: seq<nat>)
    requires IsPath(r, path)
    ensures path != [] && path[0] == r.start
  {
  }

  lemma StartThere(r: Range, stopOffset: nat, blocks: Blocks)
    requires Pruned(r, stopOffset, blocks)
    ensures r.start in blocks
  {
  }

  // ---- Codes that the parser does not handle well ----

  lemma BranchAt(code: Code, pc: nat)
    requires pc + 2 < |code| && code[pc] in [246, 247]
    ensures Complete(code, pc)
    ensures At(code, pc) == Instruction(DO_SPECIAL, if code[pc] == 246 then BRANCH else BRANCH_IF_TRUE,
                                        TwoBytes(code[pc + 1], code[pc + 2]))
    ensures After(code, pc) == Step(code, pc) == pc + 3
  {
    assert HeadSize(code, pc) == 1 && OpcodeAt(code, pc) == 15 && ArgumentAt(code, pc) == code[pc] - 240;
  }

  lemma ReturnAt(code: Code, pc: nat)
    requires pc < |code| && code[pc] == 241
    ensures Complete(code, pc) && At(code, pc) == Instruction(DO_SPECIAL, SELF_RETURN, 0)
    ensures After(code, pc) == Step(code, pc) == pc + 1
  {
    assert HeadSize(code, pc) == 1 && OpcodeAt(code, pc) == 15 && ArgumentAt(code, pc) == 1;
  }

  /** 90 pushes the constant nil. */
  lemma PushAt(code: Code, pc: nat)
    requires pc < |code| && code[pc] == 90
    ensures Complete(code, pc) && At(code, pc) == Instruction(PUSH_CONSTANT, 10, 0)
    ensures After(code, pc) == Step(code, pc) == pc + 1
  {
    assert HeadSize(code, pc) == 1 && OpcodeAt(code, pc) == 5 && ArgumentAt(code, pc) == 10;
  }

  /** 0: branch 4; 3: return; 4: branch 3; 7: a dead return. */
  const DEAD_TAIL: Code := [246, 4, 0, 241, 246, 3, 0, 241]

  lemma TailDecodes()
    ensures forall pc | pc in [0, 3, 4, 7] :: Complete(DEAD_TAIL, pc)
    ensures At(DEAD_TAIL, 0) == Instruction(DO_SPECIAL, BRANCH, 4) && After(DEAD_TAIL, 0) == Step(DEAD_TAIL, 0) == 3
    ensures At(DEAD_TAIL, 3) == Instruction(DO_SPECIAL, SELF_RETURN, 0)
    ensures After(DEAD_TAIL, 3) == Step(DEAD_TAIL, 3) == 4
    ensures At(DEAD_TAIL, 4) == Instruction(DO_SPECIAL, BRANCH, 3) && After(DEAD_TAIL, 4) == Step(DEAD_TAIL, 4) == 7
    ensures At(DEAD_TAIL, 7) == Instruction(DO_SPECIAL, SELF_RETURN, 0)
    ensures After(DEAD_TAIL, 7) == Step(DEAD_TAIL, 7) == 8
  {
    hide At, After, Step, Complete;
    BranchAt(DEAD_TAIL, 0);
    ReturnAt(DEAD_TAIL, 3);
    BranchAt(DEAD_TAIL, 4);
    ReturnAt(DEAD_TAIL, 7);
  }

  lemma TailSound()
    ensures Sound(DEAD_TAIL, 0, 8)
  {
    hide At, After, Step, Complete;
    var code := DEAD_TAIL;
    TailDecodes();
    assert 0 in [0, 3, 4, 7] && 3 in [0, 3, 4, 7] && 4 in [0, 3, 4, 7] && 7 in [0, 3, 4, 7];
    assert WellFormed(code, 7, 8) && WellFormed(code, 4, 8) && WellFormed(code, 3, 8) && WellFormed(code, 0, 8);
    assert Steps(code, 3, 3) && Steps(code, 0, 3) && Steps(code, 3, 4) && Steps(code, 0, 4);
    assert Targeted(code, 0, 8, 8) && Targeted(code, 0, 7, 8) && Targeted(code, 0, 4, 8) && Targeted(code, 0, 3, 8);
    assert Nested(code, 8, 8) && Nested(code, 7, 8) && Nested(code, 4, 8) && Nested(code, 3, 8);
  }

  lemma ListedMarks(order: seq<nat>, code: Code, pc: nat)
    ensures Marks(code, pc) == [] ==> ListedAll(order, Marks(code, pc)) == order
    ensures |Marks(code, pc)| == 1 ==> ListedAll(order, Marks(code, pc)) == Listed(order, Marks(code, pc)[0])
    ensures |Marks(code, pc)| == 2 ==>
      ListedAll(order, Marks(code, pc)) == Listed(Listed(order, Marks(code, pc)[0]), Marks(code, pc)[1])
  {
    var marks := Marks(code, pc);
    if |marks| == 1 {
      assert marks[1..] == [];
    } else if |marks| == 2 {
      assert marks[1..] == [marks[1]] && marks[1..][1..] == [];
      assert ListedAll(Listed(order, marks[0]), marks[1..]) == Listed(Listed(order, marks[0]), marks[1]) by {
        assert ListedAll(Listed(Listed(order, marks[0]), marks[1]), []) == Listed(Listed(order, marks[0]), marks[1]);
      }
    }
  }

  lemma TailLeaders()
    ensures Leaders(DEAD_TAIL, 0, 8) == [0, 4, 3] && LeaderSet(DEAD_TAIL, 0, 8) == {0, 3, 4}
  {
    hide At, After, Step, Complete;
    var code := DEAD_TAIL;
    TailDecodes();
    ListedMarks([], code, 0);
    ListedMarks([4], code, 4);
    assert Found(code, 8, 8, [4, 3]) == [4, 3];
    assert Found(code, 7, 8, [4, 3]) == [4, 3];
    assert Found(code, 4, 8, [4]) == [4, 3];
    assert Found(code, 3, 8, [4]) == [4, 3];
    assert Found(code, 0, 8, []) == [4, 3];
  }

  lemma TailGoes()
    ensures var r := Range(DEAD_TAIL, 0, 8);
      r.IsSound() && r.Leads() == {0, 3, 4} && r.Goes(0) == {4} && r.Goes(3) == {} && r.Goes(4) == {3} && !Counted(r, 4)
  {
    hide At, After, Step, Complete, Sound, LeaderSet;
    var r := Range(DEAD_TAIL, 0, 8);
    TailDecodes();
    TailSound();
    TailLeaders();
    assert r.Leaves(0) == By(0) && r.Leaves(3) == By(3) && r.Leaves(4) == By(4);
    assert Marks(r.code, 0) == [4] && Marks(r.code, 4) == [3] && Marks(r.code, 3) == [];
    assert r.Goes(0) == {4} by { assert Marks(r.code, 0)[0] == 4; }
    assert r.Goes(4) == {3} by { assert Marks(r.code, 4)[0] == 3; }
  }

  /** Dead code after the last branch hides a referer: the block at 3 is reached through 4, yet
      nobody is known to refer to it, and it is wiped out. */
  lemma ReachableLost(stopOffset: nat, blocks: Blocks)
    requires Pruned(Range(DEAD_TAIL, 0, 8), stopOffset, blocks) && Wiped(Range(DEAD_TAIL, 0, 8), blocks)
    ensures 3 in Reached(Range(DEAD_TAIL, 0, 8)) && 3 !in blocks && 4 in blocks
  {
    hide Sound, LeaderSet, Successors, ExitOf, Body, Counted, Lingers, Supported;
    var r := Range(DEAD_TAIL, 0, 8);
    TailGoes();
    ReachedOn(r, 0);
    ReachedOn(r, 4);
    assert 4 in r.Leads() && 0 in r.Leads();
    if 3 in blocks { NotedByNone(r, stopOffset, blocks, 3); }
    assert Counted(r, 0) by { TailCounted(r); }
    assert Noted(r, 0, 4);
  }

  lemma TailCounted(r: Range)
    requires r == Range(DEAD_TAIL, 0, 8)
    ensures Counted(r, 0)
  {
    TailGoes();
    assert 4 in r.Leads() && 4 > 0;
  }

  /** 0: branch 11; 3: push nil; 4: branch to 11 if true; 7: return; 8: a dead branch 3; 11: return. */
  const FORK: Code := [246, 11, 0, 90, 247, 11, 0, 241, 246, 3, 0, 241]

  lemma ForkDecodes()
    ensures forall pc | pc in [0, 3, 4, 7, 8, 11] :: Complete(FORK, pc)
    ensures At(FORK, 0) == Instruction(DO_SPECIAL, BRANCH, 11) && After(FORK, 0) == Step(FORK, 0) == 3
    ensures At(FORK, 3) == Instruction(PUSH_CONSTANT, 10, 0) && After(FORK, 3) == Step(FORK, 3) == 4
    ensures At(FORK, 4) == Instruction(DO_SPECIAL, BRANCH_IF_TRUE, 11) && After(FORK, 4) == Step(FORK, 4) == 7
    ensures At(FORK, 7) == Instruction(DO_SPECIAL, SELF_RETURN, 0) && After(FORK, 7) == Step(FORK, 7) == 8
    ensures At(FORK, 8) == Instruction(DO_SPECIAL, BRANCH, 3) && After(FORK, 8) == Step(FORK, 8) == 11
    ensures At(FORK, 11) == Instruction(DO_SPECIAL, SELF_RETURN, 0) && After(FORK, 11) == Step(FORK, 11) == 12
  {
    hide At, After, Step, Complete;
    BranchAt(FORK, 0);
    PushAt(FORK, 3);
    BranchAt(FORK, 4);
    ReturnAt(FORK, 7);
    BranchAt(FORK, 8);
    ReturnAt(FORK, 11);
  }

  lemma ForkSound()
    ensures Sound(FORK, 0, 12)
  {
    hide At, After, Step, Complete;
    var code := FORK;
    ForkDecodes();
    assert forall pc | pc in [0, 3, 4, 7, 8, 11] :: Complete(code, pc);
    assert 0 in [0, 3, 4, 7, 8, 11] && 3 in [0, 3, 4, 7, 8, 11] && 4 in [0, 3, 4, 7, 8, 11];
    assert 7 in [0, 3, 4, 7, 8, 11] && 8 in [0, 3, 4, 7, 8, 11] && 11 in [0, 3, 4, 7, 8, 11];
    assert WellFormed(code, 11, 12) && WellFormed(code, 8, 12) && WellFormed(code, 7, 12);
    assert WellFormed(code, 4, 12) && WellFormed(code, 3, 12) && WellFormed(code, 0, 12);
    assert Steps(code, 8, 11) && Steps(code, 7, 11) && Steps(code, 4, 11) && Steps(code, 3, 11) && Steps(code, 0, 11);
    assert Steps(code, 3, 3) && Steps(code, 0, 3);
    assert Targeted(code, 0, 12, 12) && Targeted(code, 0, 11, 12) && Targeted(code, 0, 8, 12) &&
      Targeted(code, 0, 7, 12);
    assert Targeted(code, 0, 4, 12) && Targeted(code, 0, 3, 12);
    assert Nested(code, 12, 12) && Nested(code, 11, 12) && Nested(code, 8, 12) && Nested(code, 7, 12);
    assert Nested(code, 4, 12) && Nested(code, 3, 12);
  }

  lemma ForkLeaders()
    ensures Leaders(FORK, 0, 12) == [0, 11, 7, 3] && LeaderSet(FORK, 0, 12) == {0, 3, 7, 11}
  {
    hide At, After, Step, Complete;
    var code := FORK;
    ForkDecodes();
    ListedMarks([], code, 0);
    ListedMarks([11], code, 4);
    ListedMarks([11, 7], code, 8);
    assert Found(code, 12, 12, [11, 7, 3]) == [11, 7, 3];
    assert Found(code, 11, 12, [11, 7, 3]) == [11, 7, 3];
    assert Found(code, 8, 12, [11, 7]) == [11, 7, 3];
    assert Found(code, 7, 12, [11, 7]) == [11, 7, 3];
    assert Found(code, 4, 12, [11]) == [11, 7, 3];
    assert Found(code, 3, 12, [11]) == [11, 7, 3];
    assert Found(code, 0, 12, []) == [11, 7, 3];
  }

  lemma ForkGoes()
    ensures var r := Range(FORK, 0, 12);
      && r.IsSound() && r.Leads() == {0, 3, 7, 11}
      && r.Goes(0) == {11} && r.Goes(3) == {7, 11} && r.Goes(7) == {} && r.Goes(11) == {}
      && Lingers(r, 0, 3, 7) && Counted(r, 0) && Counted(r, 3)
  {
    hide At, After, Step, Complete, Sound, LeaderSet;
    var r := Range(FORK, 0, 12);
    ForkDecodes();
    ForkSound();
    ForkLeaders();
    assert ExitOf(FORK, r.Leads(), 4, 12, false) == By(4) && Body(FORK, r.Leads(), 4, 12, false) == [At(FORK, 4)];
    assert r.Leaves(0) == By(0) && r.Leaves(3) == By(4) && r.Leaves(7) == By(7) && r.Leaves(11) == By(11);
    assert Marks(FORK, 0) == [11] && Marks(FORK, 4) == [7, 11] && Marks(FORK, 7) == [] && Marks(FORK, 11) == [];
    assert r.Goes(0) == {11} by { assert Marks(FORK, 0)[0] == 11; }
    assert r.Goes(3) == {7, 11} by { assert Marks(FORK, 4)[0] == 7 && Marks(FORK, 4)[1] == 11; }
    assert r.Holds(3) == [At(FORK, 3), At(FORK, 4)];
    assert 11 in r.Leads() && 11 > 3 && 11 > 0;
  }

  /** A method is parsed without a stop offset: here the block at 3 is wiped out and stays the
      one and only referer of the block at 7, which cannot be reached. */
  lemma LingeringReferer(blocks: Blocks)
    requires Pruned(Range(FORK, 0, 12), 0, blocks) && Wiped(Range(FORK, 0, 12), blocks)
    ensures blocks.Keys == {0, 7, 11} && blocks[7].referers == {3} && !Clean(Range(FORK, 0, 12), 0, blocks.Keys)
  {
    hide Sound, LeaderSet, Successors, ExitOf, Body, Counted, Lingers;
    var r := Range(FORK, 0, 12);
    ForkGoes();
    forall b, l
      ensures Noted(r, b, l) <==> (b == 0 && l == 11) || (b == 3 && (l == 7 || l == 11))
    {
    }
    assert 3 !in blocks;
    assert 3 in Remaining(r, 0, {0, 7, 11}, 7) && 0 in Remaining(r, 0, {0, 7, 11}, 11);
    assert Supported(r, 0, {0, 7, 11});
    assert blocks[7].referers == {3};
    assert 3 in blocks[7].referers && !ExactAt(r, blocks, 7);
    ExactAfterWiping(r, 0, blocks);
  }

  /** 0: return; 1: a dead branch 7; 4: a dead branch 8; 7: return; 8: branch 7; 11: a dead return. */
  const DANGLING: Code := [241, 246, 7, 0, 246, 8, 0, 241, 246, 7, 0, 241]

  lemma DanglingDecodes()
    ensures forall pc | pc in [0, 1, 4, 7, 8, 11] :: Complete(DANGLING, pc)
    ensures At(DANGLING, 0) == Instruction(DO_SPECIAL, SELF_RETURN, 0) && After(DANGLING, 0) == Step(DANGLING, 0) == 1
    ensures At(DANGLING, 1) == Instruction(DO_SPECIAL, BRANCH, 7) && After(DANGLING, 1) == Step(DANGLING, 1) == 4
    ensures At(DANGLING, 4) == Instruction(DO_SPECIAL, BRANCH, 8) && After(DANGLING, 4) == Step(DANGLING, 4) == 7
    ensures At(DANGLING, 7) == Instruction(DO_SPECIAL, SELF_RETURN, 0) && After(DANGLING, 7) == Step(DANGLING, 7) == 8
    ensures At(DANGLING, 8) == Instruction(DO_SPECIAL, BRANCH, 7) && After(DANGLING, 8) == Step(DANGLING, 8) == 11
    ensures At(DANGLING, 11) == Instruction(DO_SPECIAL, SELF_RETURN, 0)
    ensures After(DANGLING, 11) == Step(DANGLING, 11) == 12
  {
    hide At, After, Step, Complete;
    ReturnAt(DANGLING, 0);
    BranchAt(DANGLING, 1);
    BranchAt(DANGLING, 4);
    ReturnAt(DANGLING, 7);
    BranchAt(DANGLING, 8);
    ReturnAt(DANGLING, 11);
  }

  lemma DanglingSound()
    ensures Sound(DANGLING, 0, 12)
  {
    hide At, After, Step, Complete;
    var code := DANGLING;
    DanglingDecodes();
    assert 0 in [0, 1, 4, 7, 8, 11] && 1 in [0, 1, 4, 7, 8, 11] && 4 in [0, 1, 4, 7, 8, 11];
    assert 7 in [0, 1, 4, 7, 8, 11] && 8 in [0, 1, 4, 7, 8, 11] && 11 in [0, 1, 4, 7, 8, 11];
    assert WellFormed(code, 11, 12) && WellFormed(code, 8, 12) && WellFormed(code, 7, 12);
    assert WellFormed(code, 4, 12) && WellFormed(code, 1, 12) && WellFormed(code, 0, 12);
    assert Steps(code, 7, 7) && Steps(code, 4, 7) && Steps(code, 1, 7) && Steps(code, 0, 7);
    assert Steps(code, 7, 8) && Steps(code, 4, 8) && Steps(code, 1, 8) && Steps(code, 0, 8);
    assert Targeted(code, 0, 12, 12) && Targeted(code, 0, 11, 12) && Targeted(code, 0, 8, 12) &&
      Targeted(code, 0, 7, 12);
    assert Targeted(code, 0, 4, 12) && Targeted(code, 0, 1, 12);
    assert Nested(code, 12, 12) && Nested(code, 11, 12) && Nested(code, 8, 12) && Nested(code, 7, 12);
    assert Nested(code, 4, 12) && Nested(code, 1, 12);
  }

  lemma DanglingLeaders()
    ensures Leaders(DANGLING, 0, 12) == [0, 7, 8] && LeaderSet(DANGLING, 0, 12) == {0, 7, 8}
  {
    hide At, After, Step, Complete;
    var code := DANGLING;
    DanglingDecodes();
    ListedMarks([], code, 1);
    ListedMarks([7], code, 4);
    ListedMarks([7, 8], code, 8);
    assert Found(code, 12, 12, [7, 8]) == [7, 8];
    assert Found(code, 11, 12, [7, 8]) == [7, 8];
    assert Found(code, 8, 12, [7, 8]) == [7, 8];
    assert Found(code, 7, 12, [7, 8]) == [7, 8];
    assert Found(code, 4, 12, [7]) == [7, 8];
    assert Found(code, 1, 12, []) == [7, 8];
    assert Found(code, 0, 12, []) == [7, 8];
  }

  lemma DanglingGoes()
    ensures var r := Range(DANGLING, 0, 12);
      && r.IsSound() && r.Leads() == {0, 7, 8} && r.Goes(0) == {} && r.Goes(7) == {} && r.Goes(8) == {7}
      && !Counted(r, 8) && r.Holds(8) == [Instruction(DO_SPECIAL, BRANCH, 7)]
  {
    hide At, After, Step, Complete, Sound, LeaderSet;
    var r := Range(DANGLING, 0, 12);
    DanglingDecodes();
    DanglingSound();
    DanglingLeaders();
    assert r.Leaves(0) == By(0) && r.Leaves(7) == By(7) && r.Leaves(8) == By(8);
    assert Marks(DANGLING, 0) == [] && Marks(DANGLING, 7) == [] && Marks(DANGLING, 8) == [7];
    assert r.Goes(8) == {7} by { assert Marks(DANGLING, 8)[0] == 7; }
  }

  /** The parser goes through the blocks in the order 0, 7, 8.  It erases the block at 7, and then
      the one at 8, whose branch it follows to the block at 7: that one is no longer there. */
  lemma TargetGone(stopOffset: nat)
    ensures ParserStrands(Range(DANGLING, 0, 12), stopOffset)
  {
    hide Sound, LeaderSet, Successors, ExitOf, Body, Counted, Lingers, Leaders;
    var r := Range(DANGLING, 0, 12);
    DanglingGoes();
    DanglingLeaders();
    assert forall b, l :: !Noted(r, b, l);
    forall l
      ensures Doomed(r, stopOffset, l) <==> l in {7, 8}
    {
      StartSupported(r, stopOffset);
      assert forall s | Supported(r, stopOffset, s) && l in s && l != r.start :: Remaining(r, stopOffset, s, l) != {};
    }
    var pass := map[7 := 0 as nat, 8 := 0];
    assert IsSchedule(r, stopOffset, pass);
    var order := r.Order();
    assert Place(order, 7) == 1 by { PlaceAt(order, 1); }
    assert Place(order, 8) == 2 by { PlaceAt(order, 2); }
    assert IsStranded(r, pass, 8, 7);
  }
}
