/**
 * Leaving out the contexts that would only hand a result on changes no result, as long as
 * blocks are used in an orderly way: none is invoked while it is at work, and none returns
 * from a method that has returned already.
 */
module Elision {
  import opened Instructions
  import opened Contexts

  // ---- Machines in order ----

  ghost predicate SoundStore(contexts: Store, next: nat) {
    && NIL_CONTEXT !in contexts && 0 < next
    && forall id | id in contexts ::
         && id < next && contexts[id].stackTop <= |contexts[id].stack|
         && (contexts[id].previous == NIL_CONTEXT || contexts[id].previous in contexts)
         && (contexts[id].info.creating == NIL_CONTEXT || contexts[id].info.creating in contexts)
  }

  ghost predicate Sound(m: Machine) {
    m.Running? ==>
      SoundStore(m.contexts, m.next) && m.current in m.contexts && m.stackTop <= |m.contexts[m.current].stack|
  }

  lemma UsedWritten(p: Program, stack: seq<Value>, used: seq<Value>)
    ensures |used| <= |Written(p, stack, used)| || |used| > |stack| + 6
    ensures Used(Written(p, stack, used), |used|) == used
  {
  }

  // ---- The chain of suspended contexts ----

  function HeadOf(c: seq<nat>): nat {
    if c == [] then NIL_CONTEXT else c[0]
  }

  /** The contexts suspended one below the other, along `previous`, each once. */
  ghost predicate Links(s: Store, c: seq<nat>)
    decreases |c|
  {
    c == [] || (c[0] in s && c[0] !in c[1..] && s[c[0]].previous == HeadOf(c[1..]) && Links(s, c[1..]))
  }

  ghost predicate IsChain(m: Machine, c: seq<nat>) {
    && m.Running? && m.current in m.contexts && m.current !in c
    && m.contexts[m.current].previous == HeadOf(c) && Links(m.contexts, c)
  }

  function Behind(d: seq<nat>): seq<nat> {
    if d == [] then [] else d[1..]
  }

  /** What is below a context of the chain. */
  function BelowOf(c: seq<nat>, id: nat): (d: seq<nat>)
    ensures |d| <= |c| && forall x | x in d :: x in c
    decreases |c|
  {
    if c == [] then [] else if c[0] == id then c[1..] else BelowOf(c[1..], id)
  }

  /** The suspended context returns next, from itself or from the method it was made for. */
  predicate Passes(p: Program, c: Context) {
    ReturnsNext(p, c.info, c.bytePointer)
  }

  predicate Leaves(p: Program, c: Context) {
    LeavesNext(p, c.info, c.bytePointer)
  }

  /** A value given to the head of the chain is handed on until a context has more to do; this
      is the chain from there on. */
  function Landing(p: Program, s: Store, c: seq<nat>): (d: seq<nat>)
    ensures |d| <= |c| && forall x | x in d :: x in c
    decreases |c|
  {
    if c == [] || c[0] !in s then c
    else if Passes(p, s[c[0]]) then Landing(p, s, c[1..])
    else if Leaves(p, s[c[0]]) then Landing(p, s, BelowOf(c[1..], s[c[0]].info.creating))
    else c
  }

  // ---- The two machines beside each other ----

  /** What a suspended context goes on with. */
  ghost predicate SameSaved(a: Context, b: Context) {
    a.info == b.info && Used(a.stack, a.stackTop) == Used(b.stack, b.stackTop) && a.bytePointer == b.bytePointer
  }

  /** The chain of the machine that links every caller, and how the other one links the same
      contexts: each to the one a value would land at. */
  ghost predicate Beside(p: Program, es: Store, ls: Store, c: seq<nat>)
    decreases |c|
  {
    c == [] ||
    (var x, rest := c[0], c[1..];
     && x in es && x in ls && x !in rest && SameSaved(es[x], ls[x])
     && ls[x].previous == HeadOf(rest) && es[x].previous == HeadOf(Landing(p, ls, rest))
     && (Leaves(p, ls[x]) ==> ls[x].info.creating in rest)
     && Beside(p, es, ls, rest))
  }

  ghost predicate SameRegisters(e: Machine, l: Machine) {
    && e.Running? && l.Running?
    && e.next == l.next && e.current == l.current && e.objects == l.objects && e.bytePointer == l.bytePointer
    && e.current in e.contexts && l.current in l.contexts
    && Used(e.contexts[e.current].stack, e.stackTop) == Used(l.contexts[l.current].stack, l.stackTop)
    && Infos(e.contexts) == Infos(l.contexts)
  }

  /** The eliding machine e and the linking machine l do the same. */
  ghost predicate Alike(p: Program, e: Machine, l: Machine, c: seq<nat>) {
    && SameRegisters(e, l) && Sound(e) && Sound(l) && l.current !in c
    && l.contexts[l.current].previous == HeadOf(c)
    && e.contexts[e.current].previous == HeadOf(Landing(p, l.contexts, c))
    && Beside(p, e.contexts, l.contexts, c)
  }

  /** They have come to the same end, or are still alike. */
  ghost predicate AlikeOrDone(p: Program, e: Machine, l: Machine, c: seq<nat>) {
    if e.Running? then Alike(p, e, l, c) else e == l
  }

  // ---- Lemmas on chains ----

  lemma {:induction false} LandingSame(p: Program, s: Store, t: Store, c: seq<nat>)
    requires forall x | x in c :: x in s && x in t && s[x].info == t[x].info && s[x].bytePointer == t[x].bytePointer
    ensures Landing(p, s, c) == Landing(p, t, c)
    decreases |c|
  {
    if c != [] {
      if Passes(p, s[c[0]]) {
        LandingSame(p, s, t, c[1..]);
      } else if Leaves(p, s[c[0]]) {
        LandingSame(p, s, t, BelowOf(c[1..], s[c[0]].info.creating));
      }
    }
  }

  lemma {:induction false} BesideIn(p: Program, es: Store, ls: Store, c: seq<nat>)
    requires Beside(p, es, ls, c)
    ensures Links(ls, c) && forall x | x in c :: x in es && x in ls && SameSaved(es[x], ls[x])
    decreases |c|
  {
    if c != [] { BesideIn(p, es, ls, c[1..]); }
  }

  /** The relation depends on the contexts of the chain only. */
  lemma {:induction false} BesideSame(p: Program, es: Store, ls: Store, es': Store, ls': Store, c: seq<nat>)
    requires Beside(p, es, ls, c)
    requires forall x | x in c :: x in es && x in es' && es'[x] == es[x]
    requires forall x | x in c :: x in ls && x in ls' && ls'[x] == ls[x]
    ensures Beside(p, es', ls', c)
    decreases |c|
  {
    if c != [] {
      LandingSame(p, ls, ls', c[1..]);
      BesideSame(p, es, ls, es', ls', c[1..]);
    }
  }

  lemma {:induction false} BesideBelow(p: Program, es: Store, ls: Store, c: seq<nat>, id: nat)
    requires Beside(p, es, ls, c)
    ensures Beside(p, es, ls, BelowOf(c, id))
    ensures id in c ==> id in es && id in ls && ls[id].previous == HeadOf(BelowOf(c, id))
    ensures id in c ==> es[id].previous == HeadOf(Landing(p, ls, BelowOf(c, id)))
    decreases |c|
  {
    if c != [] && c[0] != id { BesideBelow(p, es, ls, c[1..], id); }
  }

  lemma {:induction false} BesideLanding(p: Program, es: Store, ls: Store, c: seq<nat>)
    requires Beside(p, es, ls, c)
    ensures var d := Landing(p, ls, c);
              Beside(p, es, ls, d) && (d != [] ==> !Passes(p, ls[d[0]]) && !Leaves(p, ls[d[0]]))
    decreases |c|
  {
    if c != [] {
      if Passes(p, ls[c[0]]) {
        BesideLanding(p, es, ls, c[1..]);
      } else if Leaves(p, ls[c[0]]) {
        BesideBelow(p, es, ls, c[1..], ls[c[0]].info.creating);
        BesideLanding(p, es, ls, BelowOf(c[1..], ls[c[0]].info.creating));
      }
    }
  }

  // ---- The same instruction ----

  lemma SameEffect(p: Program, e: Machine, l: Machine)
    requires SameRegisters(e, l)
    ensures SiteOf(e) == SiteOf(l) && TopFrame(e) == TopFrame(l) && NextEffect(p, e) == NextEffect(p, l)
    ensures e.contexts[e.current].info == l.contexts[l.current].info && e.contexts.Keys == l.contexts.Keys
  {
    SameInfo(e.contexts, l.contexts, e.current);
    SameKeys(e.contexts, l.contexts);
  }

  lemma SameInfo(a: Store, b: Store, id: nat)
    requires Infos(a) == Infos(b) && id in a
    ensures id in b && a[id].info == b[id].info
  {
    assert id in Infos(a) && Infos(a)[id] == a[id].info;
    assert id in Infos(b) && Infos(b)[id] == b[id].info;
  }

  lemma SameKeys(a: Store, b: Store)
    requires Infos(a) == Infos(b)
    ensures a.Keys == b.Keys
  {
    assert Infos(a).Keys == a.Keys && Infos(b).Keys == b.Keys;
  }

  lemma InfosUpdated(s: Store, id: nat, c: Context)
    ensures Infos(s[id := c]) == Infos(s)[id := c.info]
  {
  }

  // ---- Effects that stay in the context ----

  /** The current context writes its stack. */
  lemma GoneSound(p: Program, m: Machine, frame: Frame, objects: Objects)
    requires m.Running? && Sound(m)
    ensures Sound(Gone(p, m, frame, objects))
  {
    UsedWritten(p, m.contexts[m.current].stack, frame.stack);
  }

  lemma GoneAlike(p: Program, e: Machine, l: Machine, c: seq<nat>, frame: Frame, objects: Objects)
    requires Alike(p, e, l, c)
    ensures Alike(p, Gone(p, e, frame, objects), Gone(p, l, frame, objects), c)
  {
    hide Sound, Landing, Written;
    var e', l' := Gone(p, e, frame, objects), Gone(p, l, frame, objects);
    SameEffect(p, e, l);
    GoneSound(p, e, frame, objects);
    GoneSound(p, l, frame, objects);
    UsedWritten(p, e.contexts[e.current].stack, frame.stack);
    UsedWritten(p, l.contexts[l.current].stack, frame.stack);
    InfosUpdated(e.contexts, e.current, e'.contexts[e.current]);
    InfosUpdated(l.contexts, l.current, l'.contexts[l.current]);
    BesideIn(p, e.contexts, l.contexts, c);
    LandingSame(p, l.contexts, l'.contexts, c);
    BesideSame(p, e.contexts, l.contexts, e'.contexts, l'.contexts, c);
  }

  // ---- A new block ----

  lemma AddedSound(m: Machine, c: Context, n: nat)
    requires m.Running? && Sound(m) && m.next < n && c.stackTop <= |c.stack|
    requires c.previous == NIL_CONTEXT || c.previous in m.contexts
    requires c.info.creating == NIL_CONTEXT || c.info.creating in m.contexts
    ensures Sound(m.(contexts := m.contexts[m.next := c], next := n))
  {
  }

  /** A context that is in no chain yet changes nothing. */
  lemma AddedAlike(p: Program, e: Machine, l: Machine, c: seq<nat>, a: Context, b: Context, n: nat)
    requires Alike(p, e, l, c) && e.next < n && a.info == b.info
    requires a.stackTop <= |a.stack| && b.stackTop <= |b.stack| && a.previous == b.previous == NIL_CONTEXT
    requires a.info.creating == NIL_CONTEXT || a.info.creating in l.contexts
    ensures Alike(p, e.(contexts := e.contexts[e.next := a], next := n),
                  l.(contexts := l.contexts[l.next := b], next := n), c)
  {
    hide Landing;
    SameEffect(p, e, l);
    AddedSound(e, a, n);
    AddedSound(l, b, n);
    InfosUpdated(e.contexts, e.next, a);
    InfosUpdated(l.contexts, l.next, b);
    BesideIn(p, e.contexts, l.contexts, c);
    var es, ls := e.contexts[e.next := a], l.contexts[l.next := b];
    LandingSame(p, l.contexts, ls, c);
    BesideSame(p, e.contexts, l.contexts, es, ls, c);
  }

  // ---- Invoking a block ----

  lemma InvokedSound(m: Machine, block: nat, objects: Objects)
    requires m.Running? && Sound(m) && block in m.contexts
    ensures Sound(Running(m.contexts[block := m.contexts[block].(previous := Before(m.contexts, m.current))],
                          m.next, block, 0, m.contexts[block].info.blockBytePointer, objects))
  {
  }

  /** A block that is not at work takes the place of the context that invokes it. */
  lemma InvokedAlike(p: Program, e: Machine, l: Machine, c: seq<nat>, block: nat, objects: Objects)
    requires Alike(p, e, l, c) && block in l.contexts && block !in c && block != l.current
    ensures block in e.contexts
    ensures Alike(p, Applied(p, true, e, Invoke(block, objects)), Applied(p, false, l, Invoke(block, objects)), c)
  {
    hide Landing, Beside, Sound;
    SameEffect(p, e, l);
    InvokedSound(e, block, objects);
    InvokedSound(l, block, objects);
    SameInfo(e.contexts, l.contexts, block);
    var es := e.contexts[block := e.contexts[block].(previous := Before(e.contexts, e.current))];
    var ls := l.contexts[block := l.contexts[block].(previous := Before(l.contexts, l.current))];
    InfosUpdated(e.contexts, block, es[block]);
    InfosUpdated(l.contexts, block, ls[block]);
    BesideIn(p, e.contexts, l.contexts, c);
    LandingSame(p, l.contexts, ls, c);
    BesideSame(p, e.contexts, l.contexts, es, ls, c);
  }

  // ---- Sending a message ----

  lemma SuspendedSound(m: Machine)
    requires m.Running? && Sound(m)
    ensures Sound(Suspended(m))
  {
  }

  /** Suspending keeps the machines alike, and what is stored is the same. */
  lemma SuspendedAlike(p: Program, e: Machine, l: Machine, c: seq<nat>)
    requires Alike(p, e, l, c)
    ensures Alike(p, Suspended(e), Suspended(l), c)
    ensures SameSaved(Suspended(e).contexts[e.current], Suspended(l).contexts[l.current])
  {
    hide Landing;
    SameEffect(p, e, l);
    SuspendedSound(e);
    SuspendedSound(l);
    var e', l' := Suspended(e), Suspended(l);
    InfosUpdated(e.contexts, e.current, e'.contexts[e.current]);
    InfosUpdated(l.contexts, l.current, l'.contexts[l.current]);
    BesideIn(p, e.contexts, l.contexts, c);
    LandingSame(p, l.contexts, l'.contexts, c);
    BesideSame(p, e.contexts, l.contexts, e'.contexts, l'.contexts, c);
  }

  /** The suspended caller goes on top of the chain. */
  lemma ChainGrows(p: Program, e: Machine, l: Machine, c: seq<nat>)
    requires Alike(p, e, l, c) && SameSaved(e.contexts[e.current], l.contexts[l.current])
    requires Leaves(p, l.contexts[l.current]) ==> l.contexts[l.current].info.creating in c
    ensures Beside(p, e.contexts, l.contexts, [l.current] + c)
  {
    assert ([l.current] + c)[1..] == c;
  }

  /** The new method's context is linked to where its result lands. */
  lemma LinkedLands(p: Program, e: Machine, l: Machine, c: seq<nat>)
    requires Alike(p, e, l, c) && SameSaved(e.contexts[e.current], l.contexts[l.current])
    requires Leaves(p, l.contexts[l.current]) ==> l.contexts[l.current].info.creating in c
    ensures var x := l.contexts[l.current];
            Linked(p, true, e.contexts, e.current, x.info, x.bytePointer) ==
            HeadOf(Landing(p, l.contexts, [l.current] + c))
  {
    assert ([l.current] + c)[1..] == c;
    if Leaves(p, l.contexts[l.current]) {
      BesideBelow(p, e.contexts, l.contexts, c, l.contexts[l.current].info.creating);
    }
  }

  lemma EnteredSound(p: Program, m: Machine, methodId: nat, arguments: nat, previous: nat)
    requires m.Running? && Sound(m) && methodId in p.methods && (previous == NIL_CONTEXT || previous in m.contexts)
    ensures Sound(Entered(p, m, methodId, arguments, previous))
  {
  }

  lemma EnteredAlike(p: Program, e: Machine, l: Machine, c: seq<nat>, methodId: nat, arguments: nat, a: nat, b: nat)
    requires SameRegisters(e, l) && Sound(e) && Sound(l) && Beside(p, e.contexts, l.contexts, c)
    requires methodId in p.methods
    requires (a == NIL_CONTEXT || a in e.contexts) && (b == NIL_CONTEXT || b in l.contexts)
    requires a == HeadOf(Landing(p, l.contexts, c)) && b == HeadOf(c)
    ensures Alike(p, Entered(p, e, methodId, arguments, a), Entered(p, l, methodId, arguments, b), c)
  {
    hide Landing;
    SameEffect(p, e, l);
    EnteredSound(p, e, methodId, arguments, a);
    EnteredSound(p, l, methodId, arguments, b);
    var e', l' := Entered(p, e, methodId, arguments, a), Entered(p, l, methodId, arguments, b);
    InfosUpdated(e.contexts, e.next, e'.contexts[e.next]);
    InfosUpdated(l.contexts, l.next, l'.contexts[l.next]);
    BesideIn(p, e.contexts, l.contexts, c);
    NextIsNew(e);
    NextIsNew(l);
    LandingSame(p, l.contexts, l'.contexts, c);
    BesideSame(p, e.contexts, l.contexts, e'.contexts, l'.contexts, c);
  }

  lemma NextIsNew(m: Machine)
    requires m.Running? && Sound(m)
    ensures m.next !in m.contexts && NIL_CONTEXT !in m.contexts
  {
  }

  lemma CallAlike(p: Program, e: Machine, l: Machine, c: seq<nat>, caller: Frame, methodId: nat, arguments: nat,
                  objects: Objects)
    requires Alike(p, e, l, c) && methodId in p.methods && caller.info == l.contexts[l.current].info
    requires LeavesNext(p, caller.info, caller.bytePointer) ==> caller.info.creating in c
    ensures Alike(p, Applied(p, true, e, Call(caller, methodId, arguments, objects)),
                  Applied(p, false, l, Call(caller, methodId, arguments, objects)), [l.current] + c)
  {
    hide Landing, Alike, Beside, Sound, Entered, Linked;
    AlikeParts(p, e, l, c);
    GoneAlike(p, e, l, c, caller, objects);
    var e1, l1 := Gone(p, e, caller, objects), Gone(p, l, caller, objects);
    SuspendedAlike(p, e1, l1, c);
    var e2, l2 := Suspended(e1), Suspended(l1);
    ChainGrows(p, e2, l2, c);
    LinkedLands(p, e2, l2, c);
    AlikeParts(p, e2, l2, c);
    LandingIn(p, e2, l2, [l.current] + c);
    LinkedPlain(p, l2.contexts, l.current, caller.info, caller.bytePointer);
    var a := Linked(p, true, e2.contexts, e.current, caller.info, caller.bytePointer);
    EnteredAlike(p, e2, l2, [l.current] + c, methodId, arguments, a, l.current);
  }

  lemma LinkedPlain(p: Program, contexts: Store, id: nat, info: Info, pc: nat)
    ensures Linked(p, false, contexts, id, info, pc) == id
  {
  }

  lemma AlikeParts(p: Program, e: Machine, l: Machine, c: seq<nat>)
    requires Alike(p, e, l, c)
    ensures SameRegisters(e, l) && Sound(e) && Sound(l) && Beside(p, e.contexts, l.contexts, c)
    ensures e.contexts[e.current].info == l.contexts[l.current].info
  {
    hide Landing, Beside, Sound;
    SameEffect(p, e, l);
  }

  lemma LandingIn(p: Program, e: Machine, l: Machine, c: seq<nat>)
    requires SameRegisters(e, l) && Beside(p, e.contexts, l.contexts, c)
    ensures var a := HeadOf(Landing(p, l.contexts, c)); a == NIL_CONTEXT || (a in e.contexts && a in l.contexts)
  {
    hide SameSaved;
    BesideIn(p, e.contexts, l.contexts, c);
  }

  // ---- Returning a value ----

  lemma DeliveredSound(p: Program, m: Machine, target: nat, value: Value, objects: Objects, saves: bool)
    requires m.Running? && Sound(m)
    ensures Sound(Delivered(p, m, target, value, objects, saves))
  {
    if target in m.contexts {
      var c := m.contexts[target];
      UsedWritten(p, c.stack, Used(c.stack, c.stackTop) + [value]);
    }
  }

  /** The machine r has given the value to the head of d, and left the rest of d as it was in m. */
  ghost predicate Landed(m: Machine, d: seq<nat>, value: Value, objects: Objects, r: Machine)
    requires m.Running?
  {
    if d == [] then r == Returned(value, objects)
    else
      && r.Running? && Sound(r) && r.current == d[0] && r.next == m.next && r.objects == objects
      && d[0] in m.contexts && r.contexts.Keys == m.contexts.Keys && Infos(r.contexts) == Infos(m.contexts)
      && r.bytePointer == m.contexts[d[0]].bytePointer
      && r.stackTop <= |r.contexts[d[0]].stack|
      && Used(r.contexts[d[0]].stack, r.stackTop) == Used(m.contexts[d[0]].stack, m.contexts[d[0]].stackTop) + [value]
      && (forall id | id in m.contexts :: r.contexts[id].previous == m.contexts[id].previous)
      && (forall id | id in m.contexts && id in d[1..] :: r.contexts[id] == m.contexts[id])
  }

  /** Giving the value straight to the head of the chain. */
  lemma DeliveredLands(p: Program, m: Machine, d: seq<nat>, value: Value, objects: Objects, saves: bool)
    requires m.Running? && Sound(m) && (d == [] || (d[0] in m.contexts && d[0] !in d[1..]))
    ensures Landed(m, d, value, objects, Delivered(p, m, HeadOf(d), value, objects, saves))
  {
    DeliveredSound(p, m, HeadOf(d), value, objects, saves);
    if d != [] {
      var c := m.contexts[d[0]];
      UsedWritten(p, c.stack, Used(c.stack, c.stackTop) + [value]);
      InfosUpdated(m.contexts, d[0], Delivered(p, m, d[0], value, objects, saves).contexts[d[0]]);
    }
  }

  /** A context that returns next hands the value it is given on to the one before it, in one step. */
  lemma PassesOn(p: Program, d: Machine)
    requires d.Running? && Sound(d) && ReturnsNext(p, d.contexts[d.current].info, d.bytePointer)
    requires Used(d.contexts[d.current].stack, d.stackTop) != []
    ensures var used := Used(d.contexts[d.current].stack, d.stackTop);
      Step(p, false, d) == Delivered(p, d, d.contexts[d.current].previous, used[|used| - 1], d.objects, false)
  {
    var f := TopFrame(d);
    var code, pc := p.methods[f.info.methodId].code, f.bytePointer;
    ReturnDecodes(code, pc, STACK_RETURN);
  }

  /** A block that leaves next hands it on to the one before its method's context. */
  lemma LeavesOn(p: Program, d: Machine)
    requires d.Running? && Sound(d) && LeavesNext(p, d.contexts[d.current].info, d.bytePointer)
    requires Used(d.contexts[d.current].stack, d.stackTop) != []
    ensures var used := Used(d.contexts[d.current].stack, d.stackTop);
      Step(p, false, d) ==
        Delivered(p, d, Before(d.contexts, d.contexts[d.current].info.creating), used[|used| - 1], d.objects, false)
  {
    var f := TopFrame(d);
    var code, pc := p.methods[f.info.methodId].code, f.bytePointer;
    ReturnDecodes(code, pc, BLOCK_RETURN);
  }

  lemma ReturnDecodes(code: Code, pc: nat, kind: nat)
    requires pc < |code| && code[pc] == 240 + kind && kind in [STACK_RETURN, BLOCK_RETURN]
    ensures Complete(code, pc) && InstructionAt(code, pc) == Instruction(DO_SPECIAL, kind, 0)
  {
    assert HeadSize(code, pc) == 1 && OpcodeAt(code, pc) == DO_SPECIAL && ArgumentAt(code, pc) == kind;
  }

  lemma LandedParts(m: Machine, d: seq<nat>, value: Value, objects: Objects, r: Machine)
    requires m.Running? && d != [] && Landed(m, d, value, objects, r)
    ensures r.Running? && Sound(r) && r.current == d[0] && r.objects == objects && r.current in r.contexts
    ensures r.contexts.Keys == m.contexts.Keys && r.contexts[d[0]].info == m.contexts[d[0]].info
    ensures var used := Used(r.contexts[r.current].stack, r.stackTop); used != [] && used[|used| - 1] == value
  {
    SameInfo(r.contexts, m.contexts, d[0]);
  }

  /** Landing after a first delivery is landing. */
  lemma LandedChain(m: Machine, c: seq<nat>, r: Machine, d: seq<nat>, value: Value, objects: Objects, t: Machine)
    requires m.Running? && c != [] && Landed(m, c, value, objects, r) && r.Running? && Landed(r, d, value, objects, t)
    requires forall x | x in d :: x in c[1..] && x in m.contexts
    ensures Landed(m, d, value, objects, t)
  {
    hide Sound, Infos, Used;
    if d != [] { assert d[0] in d; }
  }

  /** The linking machine needs some more steps for handing the value on. */
  lemma {:induction false} Lands(p: Program, es: Store, m: Machine, c: seq<nat>, value: Value, objects: Objects,
                                 saves: bool)
    returns (k: nat)
    requires m.Running? && Sound(m) && Beside(p, es, m.contexts, c)
    ensures Landed(m, Landing(p, m.contexts, c), value, objects,
                   Steps(p, false, Delivered(p, m, HeadOf(c), value, objects, saves), k))
    decreases |c|
  {
    hide Landed, Sound, Step, Delivered, SameSaved, Passes, Leaves;
    var r := Delivered(p, m, HeadOf(c), value, objects, saves);
    BesideIn(p, es, m.contexts, c);
    DeliveredLands(p, m, c, value, objects, saves);
    if c != [] && (Passes(p, m.contexts[c[0]]) || Leaves(p, m.contexts[c[0]])) {
      LandedParts(m, c, value, objects, r);
      var rest := Next(p, m, c);
      BesideNext(p, es, m, c);
      NextStep(p, es, m, c, value, objects, r);
      LandedBeside(p, es, m, c, value, objects, r, rest);
      var more := Lands(p, es, r, rest, value, objects, false);
      k := 1 + more;
      BesideIn(p, es, m.contexts, rest);
      LandedChain(m, c, r, Landing(p, r.contexts, rest), value, objects,
                  Steps(p, false, Delivered(p, r, HeadOf(rest), value, objects, false), more));
    } else {
      k := 0;
    }
  }

  /** The chain after its head has handed the value on. */
  function Next(p: Program, m: Machine, c: seq<nat>): (d: seq<nat>)
    requires m.Running? && c != [] && c[0] in m.contexts
    ensures |d| < |c| && forall x | x in d :: x in c[1..]
  {
    if Passes(p, m.contexts[c[0]]) then c[1..] else BelowOf(c[1..], m.contexts[c[0]].info.creating)
  }

  lemma BesideNext(p: Program, es: Store, m: Machine, c: seq<nat>)
    requires m.Running? && c != [] && c[0] in m.contexts && Beside(p, es, m.contexts, c)
    ensures Beside(p, es, m.contexts, Next(p, m, c))
    ensures Passes(p, m.contexts[c[0]]) || Leaves(p, m.contexts[c[0]]) ==>
              Landing(p, m.contexts, c) == Landing(p, m.contexts, Next(p, m, c))
  {
    BesideBelow(p, es, m.contexts, c[1..], m.contexts[c[0]].info.creating);
  }

  /** What is below the contexts that have got the value is as before. */
  lemma LandedBeside(p: Program, es: Store, m: Machine, c: seq<nat>, value: Value, objects: Objects, r: Machine,
                     rest: seq<nat>)
    requires m.Running? && c != [] && Landed(m, c, value, objects, r) && Beside(p, es, m.contexts, rest)
    requires forall x | x in rest :: x in c[1..]
    ensures r.Running? && Sound(r) && Beside(p, es, r.contexts, rest)
    ensures Landing(p, r.contexts, rest) == Landing(p, m.contexts, rest)
  {
    hide Sound, Landing;
    BesideIn(p, es, m.contexts, rest);
    BesideSame(p, es, m.contexts, es, r.contexts, rest);
    LandingSame(p, m.contexts, r.contexts, rest);
  }

  lemma NextStep(p: Program, es: Store, m: Machine, c: seq<nat>, value: Value, objects: Objects, r: Machine)
    requires m.Running? && c != [] && c[0] in m.contexts && Beside(p, es, m.contexts, c)
    requires Landed(m, c, value, objects, r)
    requires Passes(p, m.contexts[c[0]]) || Leaves(p, m.contexts[c[0]])
    ensures r.Running? && Step(p, false, r) == Delivered(p, r, HeadOf(Next(p, m, c)), value, objects, false)
  {
    hide Sound, Step, Delivered, SameSaved, ByteAt;
    LandedParts(m, c, value, objects, r);
    if Passes(p, m.contexts[c[0]]) {
      PassesOn(p, r);
    } else {
      LeavesOn(p, r);
      BesideBelow(p, es, m.contexts, c[1..], m.contexts[c[0]].info.creating);
    }
  }

  lemma LandedAlike(p: Program, e: Machine, l: Machine, d: seq<nat>, value: Value, objects: Objects, e': Machine,
                    r: Machine)
    requires SameRegisters(e, l) && Beside(p, e.contexts, l.contexts, d) && d != []
    requires Landed(e, d, value, objects, e') && Landed(l, d, value, objects, r)
    ensures Alike(p, e', r, d[1..])
  {
    hide Landing, Sound;
    SameEffect(p, e, l);
    BesideIn(p, e.contexts, l.contexts, d);
    SameInfo(e'.contexts, e.contexts, d[0]);
    SameInfo(r.contexts, l.contexts, d[0]);
    LandingSame(p, l.contexts, r.contexts, d[1..]);
    BesideSame(p, e.contexts, l.contexts, e'.contexts, r.contexts, d[1..]);
  }

  /** The eliding machine gives a value straight to where the linking machine hands it on to. */
  lemma GivenAlike(p: Program, e: Machine, l: Machine, c: seq<nat>, value: Value, objects: Objects, saves: bool)
    returns (k: nat)
    requires SameRegisters(e, l) && Sound(e) && Sound(l) && Beside(p, e.contexts, l.contexts, c)
    ensures var d := Landing(p, l.contexts, c);
      AlikeOrDone(p, Delivered(p, e, HeadOf(d), value, objects, saves),
                  Steps(p, false, Delivered(p, l, HeadOf(c), value, objects, saves), k), Behind(d))
    ensures var d := Landing(p, l.contexts, c);
              var r := Steps(p, false, Delivered(p, l, HeadOf(c), value, objects, saves), k);
      r.Running? ==> forall x | x in Behind(d) :: x in l.contexts && x in r.contexts && r.contexts[x] == l.contexts[x]
  {
    hide Landing, Landed, Sound, Step, Delivered, Beside, SameRegisters, Alike;
    RegistersRun(e, l);
    var d := Landing(p, l.contexts, c);
    k := Lands(p, e.contexts, l, c, value, objects, saves);
    var e' := Delivered(p, e, HeadOf(d), value, objects, saves);
    var r := Steps(p, false, Delivered(p, l, HeadOf(c), value, objects, saves), k);
    BesideLanding(p, e.contexts, l.contexts, c);
    BesideHead(p, e.contexts, l.contexts, d);
    DeliveredLands(p, e, d, value, objects, saves);
    if d == [] {
      LandedNowhere(e, value, objects, e');
      LandedNowhere(l, value, objects, r);
    } else {
      LandedAlike(p, e, l, d, value, objects, e', r);
      LandedParts(e, d, value, objects, e');
      LandedKeeps(p, e.contexts, l, d, value, objects, r);
    }
  }

  lemma LandedKeeps(p: Program, es: Store, m: Machine, d: seq<nat>, value: Value, objects: Objects, r: Machine)
    requires m.Running? && d != [] && Landed(m, d, value, objects, r) && Beside(p, es, m.contexts, d)
    ensures r.Running? && forall x | x in d[1..] :: x in m.contexts && x in r.contexts && r.contexts[x] == m.contexts[x]
  {
    BesideIn(p, es, m.contexts, d);
  }

  lemma RegistersRun(e: Machine, l: Machine)
    requires SameRegisters(e, l)
    ensures e.Running? && l.Running?
  {
  }

  lemma BesideHead(p: Program, es: Store, ls: Store, d: seq<nat>)
    requires Beside(p, es, ls, d)
    ensures d != [] ==> d[0] in es && d[0] in ls && d[0] !in d[1..]
  {
  }

  lemma LandedNowhere(m: Machine, value: Value, objects: Objects, r: Machine)
    requires m.Running? && Landed(m, [], value, objects, r)
    ensures r == Returned(value, objects)
  {
  }

  // ---- Every step ----

  /** The block that is invoked is not at work, and a block that returns from its method, or
      will do so with what it now calls, finds the method's context still at work. */
  ghost predicate OrderlyNow(p: Program, l: Machine, c: seq<nat>)
    requires l.Running? && l.current in l.contexts
  {
    match NextEffect(p, l)
    case Invoke(block, _) => block != l.current && block !in c
    case GiveHome(_, _) => l.contexts[l.current].info.creating in c
    case Call(caller, _, _, _) => LeavesNext(p, caller.info, caller.bytePointer) ==> caller.info.creating in c
    case _ => true
  }

  /** What an effect says of the current context. */
  ghost predicate Fits(p: Program, m: Machine, effect: Effect)
    requires m.Running? && m.current in m.contexts
  {
    match effect
    case Call(caller, methodId, _, _) => caller.info == m.contexts[m.current].info && methodId in p.methods
    case Make(frame, made, _) => made.creating in m.contexts
    case Invoke(block, _) => block in m.contexts
    case _ => true
  }

  lemma EffectFits(p: Program, m: Machine)
    requires m.Running? && Sound(m)
    ensures Fits(p, m, NextEffect(p, m))
  {
    hide Infos, Sound;
    CreatorIn(m);
    InfosHave(m.contexts);
  }

  lemma InfosHave(s: Store)
    ensures forall id :: id in Infos(s) <==> id in s
    ensures forall id | id in s :: Infos(s)[id] == s[id].info
  {
  }

  /** Every step leaves the machine sound. */
  lemma StepSound(p: Program, elide: bool, m: Machine)
    requires Sound(m)
    ensures Sound(Step(p, elide, m))
  {
    hide NextEffect, Delivered, Entered;
    if m.Running? {
      EffectFits(p, m);
      AppliedSound(p, elide, m, NextEffect(p, m));
    }
  }

  lemma AppliedSound(p: Program, elide: bool, m: Machine, effect: Effect)
    requires m.Running? && Sound(m) && Fits(p, m, effect)
    ensures Sound(Applied(p, elide, m, effect))
  {
    hide Delivered, Entered, Sound, Written;
    CreatorIn(m);
    match effect
    case Go(frame, objects) => GoneSound(p, m, frame, objects);
    case Call(caller, methodId, arguments, objects) =>
      GoneSound(p, m, caller, objects);
      var s := Suspended(Gone(p, m, caller, objects));
      SuspendedSound(Gone(p, m, caller, objects));
      LinkedIn(p, elide, s, caller.info, caller.bytePointer);
      EnteredSound(p, s, methodId, arguments, Linked(p, elide, s.contexts, m.current, caller.info, caller.bytePointer));
    case Make(frame, made, objects) =>
      GoneSound(p, m, frame, objects);
      var nils := seq(if made.methodId in p.methods then p.methods[made.methodId].stackSize else 0, _ => p.nilObject);
      AddedSound(Gone(p, m, frame, objects), Context(made, nils, 0, 0, NIL_CONTEXT), m.next + 4);
    case Invoke(block, objects) => InvokedSound(m, block, objects);
    case Give(value, objects, saves) => DeliveredSound(p, m, Before(m.contexts, m.current), value, objects, saves);
    case GiveHome(value, objects) =>
      DeliveredSound(p, m, Before(m.contexts, m.contexts[m.current].info.creating), value, objects, false);
    case Stop(objects) => StoppedSound(Errored(objects));
    case Fault => StoppedSound(Undefined);
  }

  lemma StoppedSound(m: Machine)
    requires !m.Running?
    ensures Sound(m)
  {
  }

  lemma LinkedIn(p: Program, elide: bool, m: Machine, info: Info, pc: nat)
    requires m.Running? && Sound(m)
    ensures var id := Linked(p, elide, m.contexts, m.current, info, pc); id == NIL_CONTEXT || id in m.contexts
  {
  }

  lemma CreatorIn(m: Machine)
    requires m.Running? && Sound(m)
    ensures m.contexts[m.current].info.IsBlock() ==> m.contexts[m.current].info.creating in m.contexts
    ensures m.current != NIL_CONTEXT && m.current in m.contexts
  {
  }

  /** How many contexts of the chain do more than return the result they wait for, from
      themselves or from the method they were made for. */
  function Waiting(p: Program, s: Store, c: seq<nat>): nat
    decreases |c|
  {
    if c == [] then 0
    else (if c[0] in s && !Passes(p, s[c[0]]) && !Leaves(p, s[c[0]]) then 1 else 0) + Waiting(p, s, c[1..])
  }

  lemma {:induction false} WaitingSame(p: Program, s: Store, t: Store, c: seq<nat>)
    requires forall x | x in c :: x in s && x in t && s[x].info == t[x].info && s[x].bytePointer == t[x].bytePointer
    ensures Waiting(p, s, c) == Waiting(p, t, c)
    decreases |c|
  {
    if c != [] { WaitingSame(p, s, t, c[1..]); }
  }

  lemma {:induction false} WaitingBelow(p: Program, s: Store, c: seq<nat>, id: nat)
    ensures Waiting(p, s, BelowOf(c, id)) <= Waiting(p, s, c)
    decreases |c|
  {
    if c != [] && c[0] != id { WaitingBelow(p, s, c[1..], id); }
  }

  lemma {:induction false} WaitingLanding(p: Program, s: Store, c: seq<nat>)
    ensures Waiting(p, s, Behind(Landing(p, s, c))) <= Waiting(p, s, c)
    decreases |c|
  {
    if c != [] && c[0] in s {
      if Passes(p, s[c[0]]) {
        WaitingLanding(p, s, c[1..]);
      } else if Leaves(p, s[c[0]]) {
        WaitingLanding(p, s, BelowOf(c[1..], s[c[0]].info.creating));
        WaitingBelow(p, s, c[1..], s[c[0]].info.creating);
      }
    }
  }

  /** More than a return of the result follows the call. */
  predicate GoesOn(p: Program, caller: Frame) {
    !ReturnsNext(p, caller.info, caller.bytePointer) && !LeavesNext(p, caller.info, caller.bytePointer)
  }

  /** The next instruction is a send, and more than a return of its result follows it. */
  predicate SendsOn(p: Program, m: Machine) {
    m.Running? && m.current in m.contexts && NextEffect(p, m).Call? && GoesOn(p, NextEffect(p, m).caller)
  }

  function Bound(p: Program, l: Machine, c: seq<nat>): nat {
    if l.Running? then Waiting(p, l.contexts, c) else 0
  }

  lemma WaitingCall(p: Program, l: Machine, c: seq<nat>, caller: Frame, methodId: nat, arguments: nat, objects: Objects)
    requires l.Running? && Sound(l) && l.current !in c && methodId in p.methods
    requires caller.info == l.contexts[l.current].info
    requires forall x | x in c :: x in l.contexts
    ensures Bound(p, Applied(p, false, l, Call(caller, methodId, arguments, objects)), [l.current] + c) <=
            Waiting(p, l.contexts, c) + if GoesOn(p, caller) then 1 else 0
  {
    hide Written;
    var now := Applied(p, false, l, Call(caller, methodId, arguments, objects));
    NextIsNew(l);
    WaitingSame(p, l.contexts, now.contexts, c);
    assert ([l.current] + c)[1..] == c;
  }

  /** One step of the eliding machine is answered by one step of the linking machine, and those
      that only hand the result on. */
  lemma StepAlike(p: Program, e: Machine, l: Machine, c: seq<nat>) returns (k: nat, c': seq<nat>)
    requires Alike(p, e, l, c) && OrderlyNow(p, l, c)
    ensures k > 0 && AlikeOrDone(p, Step(p, true, e), Steps(p, false, l, k), c')
    ensures Bound(p, Steps(p, false, l, k), c') <= Waiting(p, l.contexts, c) + if SendsOn(p, l) then 1 else 0
  {
    hide Alike, Beside, Sound, Landing, SameRegisters, NextEffect, Delivered, Passes, Waiting;
    AlikeParts(p, e, l, c);
    RegistersRun(e, l);
    StartOf(p, e, l, c);
    EffectFits(p, l);
    var effect := NextEffect(p, l);
    OneStep(p, l);
    match effect
    case Go(frame, objects) =>
      GoneAlike(p, e, l, c, frame, objects);
      k, c' := 1, c;
      WaitingSame(p, l.contexts, Gone(p, l, frame, objects).contexts, c);
    case Call(caller, methodId, arguments, objects) =>
      CallAlike(p, e, l, c, caller, methodId, arguments, objects);
      k, c' := 1, [l.current] + c;
      WaitingCall(p, l, c, caller, methodId, arguments, objects);
    case Make(frame, made, objects) =>
      k, c' := 1, c;
      MadeAlike(p, e, l, c, frame, made, objects);
    case Invoke(block, objects) =>
      InvokedAlike(p, e, l, c, block, objects);
      k, c' := 1, c;
      WaitingSame(p, l.contexts, Applied(p, false, l, effect).contexts, c);
    case Give(value, objects, saves) =>
      var more := GivenAlike(p, e, l, c, value, objects, saves);
      k, c' := 1 + more, Behind(Landing(p, l.contexts, c));
      WaitingGiven(p, l, c, c, Steps(p, false, l, k));
    case GiveHome(value, objects) =>
      var rest := BelowOf(c, l.contexts[l.current].info.creating);
      BesideBelow(p, e.contexts, l.contexts, c, l.contexts[l.current].info.creating);
      var more := GivenAlike(p, e, l, rest, value, objects, false);
      k, c' := 1 + more, Behind(Landing(p, l.contexts, rest));
      WaitingBelow(p, l.contexts, c, l.contexts[l.current].info.creating);
      WaitingGiven(p, l, c, rest, Steps(p, false, l, k));
    case Stop(objects) =>
      k, c' := 1, [];
    case Fault =>
      k, c' := 1, [];
  }

  lemma WaitingGiven(p: Program, l: Machine, c: seq<nat>, rest: seq<nat>, r: Machine)
    requires l.Running? && Waiting(p, l.contexts, rest) <= Waiting(p, l.contexts, c)
    requires var d := Landing(p, l.contexts, rest);
      r.Running? ==> forall x | x in Behind(d) :: x in l.contexts && x in r.contexts && r.contexts[x] == l.contexts[x]
    ensures Bound(p, r, Behind(Landing(p, l.contexts, rest))) <= Waiting(p, l.contexts, c)
  {
    hide Landing, Waiting;
    WaitingLanding(p, l.contexts, rest);
    if r.Running? { WaitingSame(p, l.contexts, r.contexts, Behind(Landing(p, l.contexts, rest))); }
  }

  lemma OneStep(p: Program, l: Machine)
    ensures Steps(p, false, l, 1) == Step(p, false, l)
    ensures forall n: nat :: Steps(p, false, l, 1 + n) == Steps(p, false, Step(p, false, l), n)
  {
    hide Step;
  }

  /** What the relation says before the first step. */
  lemma StartOf(p: Program, e: Machine, l: Machine, c: seq<nat>)
    requires Alike(p, e, l, c)
    ensures l.current in l.contexts && e.current in e.contexts && NextEffect(p, e) == NextEffect(p, l)
    ensures l.current !in c
    ensures Before(l.contexts, l.current) == HeadOf(c)
    ensures Before(e.contexts, e.current) == HeadOf(Landing(p, l.contexts, c))
    ensures forall x | x in c :: x in l.contexts
    ensures e.contexts[e.current].info == l.contexts[l.current].info
  {
    hide Landing, Sound, NextEffect;
    SameEffect(p, e, l);
    BesideIn(p, e.contexts, l.contexts, c);
  }

  lemma MadeAlike(p: Program, e: Machine, l: Machine, c: seq<nat>, frame: Frame, made: Info, objects: Objects)
    requires Alike(p, e, l, c) && l.Running? && l.current in l.contexts && made.creating in l.contexts
    ensures e.Running? && e.current in e.contexts
    ensures Alike(p, Applied(p, true, e, Make(frame, made, objects)),
                  Applied(p, false, l, Make(frame, made, objects)), c)
    ensures Bound(p, Applied(p, false, l, Make(frame, made, objects)), c) <= Waiting(p, l.contexts, c)
  {
    hide Landing, Alike, Sound, Beside;
    AlikeParts(p, e, l, c);
    StartOf(p, e, l, c);
    GoneAlike(p, e, l, c, frame, objects);
    var e1, l1 := Gone(p, e, frame, objects), Gone(p, l, frame, objects);
    var nils := seq(if made.methodId in p.methods then p.methods[made.methodId].stackSize else 0, _ => p.nilObject);
    AddedAlike(p, e1, l1, c, Context(made, nils, 0, 0, NIL_CONTEXT), Context(made, nils, 0, 0, NIL_CONTEXT),
               l.next + 4);
    NextIsNew(l);
    WaitingSame(p, l.contexts, Applied(p, false, l, Make(frame, made, objects)).contexts, c);
  }

  // ---- Whole runs ----

  /** Blocks are used in an orderly way throughout the run of the linking machine. */
  ghost predicate Orderly(p: Program, l: Machine) {
    forall n: nat, c :: IsChain(Steps(p, false, l, n), c) ==> OrderlyNow(p, Steps(p, false, l, n), c)
  }

  lemma AlikeIsChain(p: Program, e: Machine, l: Machine, c: seq<nat>)
    requires Alike(p, e, l, c)
    ensures IsChain(l, c)
  {
    hide Landing, Sound;
    BesideIn(p, e.contexts, l.contexts, c);
  }

  lemma OrderlyLater(p: Program, l: Machine, k: nat)
    requires Orderly(p, l)
    ensures Orderly(p, Steps(p, false, l, k))
  {
    hide OrderlyNow, Links, Step;
    forall n: nat, c | IsChain(Steps(p, false, Steps(p, false, l, k), n), c)
      ensures OrderlyNow(p, Steps(p, false, Steps(p, false, l, k), n), c)
    {
      StepsSplit(p, false, l, k, n);
      assert Steps(p, false, l, k + n) == Steps(p, false, Steps(p, false, l, k), n);
    }
  }

  lemma OrderlyAt(p: Program, e: Machine, l: Machine, c: seq<nat>)
    requires Alike(p, e, l, c) && Orderly(p, l)
    ensures l.Running? && l.current in l.contexts && OrderlyNow(p, l, c)
  {
    hide OrderlyNow, Alike;
    AlikeIsChain(p, e, l, c);
    assert Steps(p, false, l, 0) == l;
  }

  /** How many of the next n steps of the eliding machine are sends with more behind them than a return. */
  function SendsIn(p: Program, m: Machine, n: nat): nat
    decreases n
  {
    if n == 0 then 0 else (if SendsOn(p, m) then 1 else 0) + SendsIn(p, Step(p, true, m), n - 1)
  }

  /** A stuttering simulation: after any number of steps the eliding machine stands where the
      linking one does, later; and the chain of the linking machine, without the contexts that
      only return, has grown by no more than the sends that are in front of neither return. */
  lemma {:induction false} Simulates(p: Program, e: Machine, l: Machine, c: seq<nat>, n: nat)
    returns (m: nat, d: seq<nat>)
    requires AlikeOrDone(p, e, l, c) && Orderly(p, l)
    ensures n <= m && AlikeOrDone(p, Steps(p, true, e, n), Steps(p, false, l, m), d)
    ensures Bound(p, Steps(p, false, l, m), d) <= Bound(p, l, c) + SendsIn(p, e, n)
    decreases n
  {
    hide Alike, Step, Orderly, OrderlyNow, Bound, SendsOn;
    if n == 0 {
      m, d := 0, c;
    } else if e.Running? {
      OrderlyAt(p, e, l, c);
      var k, c' := StepAlike(p, e, l, c);
      BoundRunning(p, l, c);
      SendsAlike(p, e, l, c);
      OrderlyLater(p, l, k);
      var more;
      more, d := Simulates(p, Step(p, true, e), Steps(p, false, l, k), c', n - 1);
      m := k + more;
      StepsSplit(p, false, l, k, more);
    } else {
      m, d := n, c;
      Stays(p, true, e, n);
      Stays(p, false, l, n);
    }
  }

  lemma BoundRunning(p: Program, l: Machine, c: seq<nat>)
    requires l.Running?
    ensures Bound(p, l, c) == Waiting(p, l.contexts, c)
  {
  }

  lemma SendsAlike(p: Program, e: Machine, l: Machine, c: seq<nat>)
    requires Alike(p, e, l, c)
    ensures SendsOn(p, e) <==> SendsOn(p, l)
  {
    hide Landing, Beside, Sound, NextEffect;
    StartOf(p, e, l, c);
  }

  /** A process starts, or goes on, with a chain in which no context would only return. */
  ghost predicate Starts(p: Program, m: Machine, c: seq<nat>) {
    && Sound(m) && IsChain(m, c)
    && forall x | x in c :: x in m.contexts && !Passes(p, m.contexts[x]) && !Leaves(p, m.contexts[x])
  }

  lemma {:induction false} StartsBeside(p: Program, s: Store, c: seq<nat>)
    requires Links(s, c) && forall x | x in c :: x in s && !Passes(p, s[x]) && !Leaves(p, s[x])
    ensures Beside(p, s, s, c) && Landing(p, s, c) == c
    decreases |c|
  {
    if c != [] { StartsBeside(p, s, c[1..]); }
  }

  lemma StartsAlike(p: Program, m: Machine, c: seq<nat>)
    requires Starts(p, m, c)
    ensures Alike(p, m, m, c)
  {
    StartsBeside(p, m.contexts, c);
  }

  /**
   * A process that uses blocks in an orderly way finishes under one machine exactly if it does
   * under the other, with the same result and the same objects, and the eliding machine needs
   * no more steps.
   */
  lemma SameResult(p: Program, start: Machine, c: seq<nat>, end: Machine)
    requires Starts(p, start, c) && Orderly(p, start) && !end.Running?
    ensures (exists n :: Steps(p, true, start, n) == end) <==> (exists n :: Steps(p, false, start, n) == end)
    ensures forall n | Steps(p, false, start, n) == end :: Steps(p, true, start, n) == end
  {
    hide Starts, Orderly, Step, Alike;
    StartsAlike(p, start, c);
    if n: nat :| Steps(p, true, start, n) == end {
      var m, d := Simulates(p, start, start, c, n);
      assert Steps(p, false, start, m) == end;
    }
    forall n: nat | Steps(p, false, start, n) == end
      ensures Steps(p, true, start, n) == end
    {
      var m, d := Simulates(p, start, start, c, n);
      StepsSplit(p, false, start, n, m - n);
      Stays(p, false, end, m - n);
      StillRunning(p, Steps(p, true, start, n), end, d);
    }
    if n: nat :| Steps(p, false, start, n) == end {
      assert Steps(p, true, start, n) == end;
    }
  }

  lemma StillRunning(p: Program, e: Machine, l: Machine, d: seq<nat>)
    requires AlikeOrDone(p, e, l, d) && !l.Running?
    ensures e == l
  {
  }

  // ---- The chain of the eliding machine ----

  /** The contexts of the chain at which a value can land. */
  function KeptOf(p: Program, s: Store, c: seq<nat>): seq<nat>
    decreases |c|
  {
    var d := Landing(p, s, c);
    if d == [] then [] else [d[0]] + KeptOf(p, s, d[1..])
  }

  lemma {:induction false} KeptIn(p: Program, s: Store, c: seq<nat>)
    requires forall x | x in c :: x in s
    ensures forall x | x in KeptOf(p, s, c) :: x in c && !Passes(p, s[x]) && !Leaves(p, s[x])
    ensures |KeptOf(p, s, c)| <= Waiting(p, s, c)
    decreases |c|
  {
    hide Passes, Leaves;
    var d := Landing(p, s, c);
    LandingStops(p, s, c);
    WaitingAtLanding(p, s, c);
    if d != [] { KeptIn(p, s, d[1..]); }
  }

  lemma {:induction false} LandingStops(p: Program, s: Store, c: seq<nat>)
    requires forall x | x in c :: x in s
    ensures var d := Landing(p, s, c); d != [] ==> !Passes(p, s[d[0]]) && !Leaves(p, s[d[0]])
    decreases |c|
  {
    if c != [] {
      if Passes(p, s[c[0]]) { LandingStops(p, s, c[1..]); }
      else if Leaves(p, s[c[0]]) { LandingStops(p, s, BelowOf(c[1..], s[c[0]].info.creating)); }
    }
  }

  lemma {:induction false} WaitingAtLanding(p: Program, s: Store, c: seq<nat>)
    requires forall x | x in c :: x in s
    ensures var d := Landing(p, s, c); Waiting(p, s, d) <= Waiting(p, s, c)
    decreases |c|
  {
    hide Passes, Leaves;
    if c != [] {
      if Passes(p, s[c[0]]) {
        WaitingAtLanding(p, s, c[1..]);
      } else if Leaves(p, s[c[0]]) {
        WaitingAtLanding(p, s, BelowOf(c[1..], s[c[0]].info.creating));
        WaitingBelow(p, s, c[1..], s[c[0]].info.creating);
      }
    }
  }

  /** The eliding machine's own chain, along its own links. */
  lemma {:induction false} KeptLinks(p: Program, es: Store, ls: Store, c: seq<nat>)
    requires Beside(p, es, ls, c)
    ensures Links(es, KeptOf(p, ls, c)) && HeadOf(KeptOf(p, ls, c)) == HeadOf(Landing(p, ls, c))
    decreases |c|
  {
    hide Passes, Leaves;
    var d := Landing(p, ls, c);
    BesideLanding(p, es, ls, c);
    if d != [] {
      BesideIn(p, es, ls, d);
      KeptLinks(p, es, ls, d[1..]);
      KeptIn(p, ls, d[1..]);
      assert ([d[0]] + KeptOf(p, ls, d[1..]))[1..] == KeptOf(p, ls, d[1..]);
    }
  }

  lemma ElidedChain(p: Program, e: Machine, l: Machine, c: seq<nat>) returns (d: seq<nat>)
    requires Alike(p, e, l, c)
    ensures IsChain(e, d) && |d| <= Bound(p, l, c)
    ensures forall x | x in d :: x in e.contexts && !Passes(p, e.contexts[x]) && !Leaves(p, e.contexts[x])
  {
    hide Landing, Sound, Passes, Leaves, Waiting;
    d := KeptOf(p, l.contexts, c);
    KeptLinks(p, e.contexts, l.contexts, c);
    BesideIn(p, e.contexts, l.contexts, c);
    KeptIn(p, l.contexts, c);
    forall x | x in d
      ensures x in e.contexts && !Passes(p, e.contexts[x]) && !Leaves(p, e.contexts[x])
    {
      PassesSame(p, e.contexts[x], l.contexts[x]);
    }
  }

  lemma PassesSame(p: Program, a: Context, b: Context)
    requires SameSaved(a, b)
    ensures (Passes(p, a) <==> Passes(p, b)) && (Leaves(p, a) <==> Leaves(p, b))
  {
  }

  lemma {:induction false} WaitingAtMost(p: Program, s: Store, c: seq<nat>)
    ensures Waiting(p, s, c) <= |c|
    decreases |c|
  {
    if c != [] { WaitingAtMost(p, s, c[1..]); }
  }

  /**
   * However long it runs, the eliding machine suspends no context that would only return, and
   * its chain grows by no more than one context for each send that has more behind it than a
   * return, be it of a method or from the method of a block.
   */
  lemma ChainBound(p: Program, start: Machine, c: seq<nat>, n: nat) returns (d: seq<nat>)
    requires Starts(p, start, c) && Orderly(p, start)
    ensures var now := Steps(p, true, start, n);
      now.Running? ==>
        && IsChain(now, d) && |d| <= |c| + SendsIn(p, start, n)
        && forall x | x in d :: x in now.contexts && !Passes(p, now.contexts[x]) && !Leaves(p, now.contexts[x])
  {
    hide Starts, Orderly, Step, Alike, IsChain, Passes, Leaves, SendsOn, Waiting;
    StartsAlike(p, start, c);
    AlikeRuns(p, start, start, c);
    var m, b := Simulates(p, start, start, c, n);
    WaitingAtMost(p, start.contexts, c);
    if Steps(p, true, start, n).Running? {
      d := ElidedChain(p, Steps(p, true, start, n), Steps(p, false, start, m), b);
    } else {
      d := [];
    }
  }

  lemma AlikeRuns(p: Program, e: Machine, l: Machine, c: seq<nat>)
    requires Alike(p, e, l, c)
    ensures e.Running? && l.Running?
  {
  }

  // ---- Runs without blocks ----

  ghost predicate OnlyMethods(m: Machine) {
    Sound(m) && (m.Running? ==> forall id | id in m.contexts :: !m.contexts[id].info.IsBlock())
  }

  predicate MakesBlock(p: Program, m: Machine) {
    m.Running? && m.current in m.contexts && NextEffect(p, m).Make?
  }

  lemma OnlyMethodsStep(p: Program, m: Machine)
    requires OnlyMethods(m) && !MakesBlock(p, m)
    ensures OnlyMethods(Step(p, false, m))
  {
    hide NextEffect, Sound, Written;
    StepSound(p, false, m);
    if m.Running? { EffectFits(p, m); }
  }

  lemma {:induction false} OnlyMethodsRun(p: Program, m: Machine, n: nat)
    requires OnlyMethods(m)
    requires forall k: nat | k < n :: !MakesBlock(p, Steps(p, false, m, k))
    ensures OnlyMethods(Steps(p, false, m, n))
    decreases n
  {
    hide NextEffect, Step, Sound, OnlyMethods;
    if n > 0 {
      OnlyMethodsRun(p, m, n - 1);
      StepsSplit(p, false, m, n - 1, 1);
      var now := Steps(p, false, m, n - 1);
      CurrentIn(now);
      OnlyMethodsStep(p, now);
      OneStep(p, now);
    }
  }

  lemma CurrentIn(m: Machine)
    requires OnlyMethods(m)
    ensures m.Running? ==> m.current in m.contexts
  {
  }

  /** A run that makes no blocks needs no order. */
  lemma BlocklessIsOrderly(p: Program, m: Machine)
    requires OnlyMethods(m)
    requires forall k: nat :: !MakesBlock(p, Steps(p, false, m, k))
    ensures Orderly(p, m)
  {
    hide NextEffect, Step, OnlyMethods, OrderlyNow, Links;
    forall n: nat, c | IsChain(Steps(p, false, m, n), c)
      ensures OrderlyNow(p, Steps(p, false, m, n), c)
    {
      OnlyMethodsRun(p, m, n);
      OrderlyWithoutBlocks(p, Steps(p, false, m, n), c);
    }
  }

  /** No method of the program holds the code of a block. */
  predicate HoldsNoBlocks(p: Program) {
    forall id, pc: nat | id in p.methods && pc < |p.methods[id].code| && Complete(p.methods[id].code, pc) ::
      InstructionAt(p.methods[id].code, pc).opcode != PUSH_BLOCK
  }

  /** A program without blocks in its code needs no order. */
  lemma MethodsAreOrderly(p: Program, m: Machine)
    requires OnlyMethods(m) && HoldsNoBlocks(p)
    ensures Orderly(p, m)
  {
    hide OnlyMethods, Orderly, Step;
    forall k: nat
      ensures !MakesBlock(p, Steps(p, false, m, k))
    {
      NoneIsMade(p, Steps(p, false, m, k));
    }
    BlocklessIsOrderly(p, m);
  }

  lemma NoneIsMade(p: Program, m: Machine)
    requires HoldsNoBlocks(p)
    ensures !MakesBlock(p, m)
  {
    hide InstructionAt, NextOf, Execute, HeadSize;
    if MakesBlock(p, m) {
      var f := TopFrame(m);
      var code := p.methods[f.info.methodId].code;
      OnlyPushMakes(p, SiteOf(m), f.(bytePointer := NextOf(code, f.bytePointer)), InstructionAt(code, f.bytePointer),
                    m.objects);
    }
  }

  lemma OnlyPushMakes(p: Program, s: Site, f: Frame, i: Instruction, objects: Objects)
    requires f.info.methodId in p.methods && Execute(p, s, f, i, objects).Make?
    ensures i.opcode == PUSH_BLOCK
  {
  }

  lemma OrderlyWithoutBlocks(p: Program, m: Machine, c: seq<nat>)
    requires m.Running? && OnlyMethods(m) && m.current in m.contexts
    ensures OrderlyNow(p, m, c)
  {
    hide Sound;
    InfosHave(m.contexts);
    EffectFits(p, m);
  }

  // ---- A block that is invoked while it is at work ----

  /**
   * A method keeps a block in a temporary, sends #value to it and returns the result.  The
   * block, from byte 3 on, returns the receiver if another temporary says that it has been
   * here; otherwise it notes that, sends #value to itself and returns the result.  The method
   * of #value pushes its receiver and invokes it.
   */
  const ONCE: Code := [192, 14, 0, 48, 247, 13, 0, 91, 112, 49, 129, 144, 242, 241, 113, 129, 144, 242]
  const VALUE: Code := [32, 209, 8]

  /** The addresses of new objects, in order. */
  function Room(objects: Objects): nat {
    if 100 !in objects then 100
    else if 104 !in objects then 104
    else if 108 !in objects then 108
    else 112
  }

  function Reentering(): Program {
    Program(map[1 := Method(ONCE, [100], 2, 0, 0), 2 := Method(VALUE, [], 0, 0, 0)],
            (selector, klass) => 2, (k, n, stack, objects) => Kept(objects), objects => Room(objects),
            20, 24, 28, 32, 36, 48, 52, 56, [])
  }

  /** A process that starts with the method, for the receiver 1. */
  function Beginning(): Machine {
    Running(map[4 := Context(Info(1, 40, 44, NIL_CONTEXT, 0, 0), [], 0, 0, NIL_CONTEXT)], 8, 4, 0, 0, Objects0())
  }

  function Objects0(): Objects {
    map[40 := Object(48, [1]), 44 := Object(48, [20, 20])]
  }

  /** The block is in its temporary, and the arguments of the first send are made. */
  function Objects1(): Objects {
    Objects0()[44 := Object(48, [20, 8])][100 := Object(48, [8])]
  }

  /** The method of #value has its temporaries. */
  function Objects2(): Objects {
    Objects1()[104 := Object(48, [])]
  }

  /** The block has been noted, and the arguments of its own send are made. */
  function Objects3(): Objects {
    Objects2()[44 := Object(48, [24, 8])][108 := Object(48, [8])]
  }

  function Objects4(): Objects {
    Objects3()[112 := Object(48, [])]
  }

  predicate Decodes(code: Code, pc: nat, i: Instruction, next: nat) {
    Complete(code, pc) && InstructionAt(code, pc) == i && NextOf(code, pc) == next
  }

  lemma ShortAt(code: Code, pc: nat)
    requires pc < |code| && code[pc] >= 16 && Operands(code[pc] / 16, code[pc] % 16) == 0
    ensures Decodes(code, pc, Instruction(code[pc] / 16, code[pc] % 16, 0), pc + 1)
  {
  }

  lemma LongAt(code: Code, pc: nat)
    requires pc + 2 < |code| && code[pc] >= 16 && Operands(code[pc] / 16, code[pc] % 16) == 2
    ensures Decodes(code, pc, Instruction(code[pc] / 16, code[pc] % 16, TwoBytes(code[pc + 1], code[pc + 2])), pc + 3)
  {
  }

  lemma OnceBytes()
    ensures |ONCE| == 18 && ONCE[0] == 192 && ONCE[1] == 14 && ONCE[2] == 0 && ONCE[3] == 48 && ONCE[4] == 247
    ensures ONCE[5] == 13 && ONCE[6] == 0 && ONCE[7] == 91 && ONCE[8] == 112 && ONCE[9] == 49 && ONCE[10] == 129
    ensures ONCE[11] == 144 && ONCE[12] == 242 && ONCE[13] == 241 && ONCE[14] == 113 && ONCE[15] == 129
    ensures ONCE[16] == 144 && ONCE[17] == 242
  {
  }

  lemma OnceDecodes()
    ensures Decodes(ONCE, 0, Instruction(PUSH_BLOCK, 0, 14), 3)
    ensures Decodes(ONCE, 3, Instruction(PUSH_TEMPORARY, 0, 0), 4)
    ensures Decodes(ONCE, 4, Instruction(DO_SPECIAL, BRANCH_IF_TRUE, 13), 7)
    ensures Decodes(ONCE, 7, Instruction(PUSH_CONSTANT, 11, 0), 8)
    ensures Decodes(ONCE, 8, Instruction(ASSIGN_TEMPORARY, 0, 0), 9)
    ensures Decodes(ONCE, 9, Instruction(PUSH_TEMPORARY, 1, 0), 10)
    ensures Decodes(ONCE, 10, Instruction(MARK_ARGUMENTS, 1, 0), 11)
    ensures Decodes(ONCE, 11, Instruction(SEND_MESSAGE, 0, 0), 12)
    ensures Decodes(ONCE, 12, Instruction(DO_SPECIAL, STACK_RETURN, 0), 13)
    ensures Decodes(ONCE, 13, Instruction(DO_SPECIAL, SELF_RETURN, 0), 14)
    ensures Decodes(ONCE, 14, Instruction(ASSIGN_TEMPORARY, 1, 0), 15)
    ensures Decodes(ONCE, 15, Instruction(MARK_ARGUMENTS, 1, 0), 16)
    ensures Decodes(ONCE, 16, Instruction(SEND_MESSAGE, 0, 0), 17)
    ensures Decodes(ONCE, 17, Instruction(DO_SPECIAL, STACK_RETURN, 0), 18)
  {
    hide ONCE, Decodes;
    OnceBytes();
    LongAt(ONCE, 0);
    ShortAt(ONCE, 3);
    LongAt(ONCE, 4);
    ShortAt(ONCE, 7);
    ShortAt(ONCE, 8);
    ShortAt(ONCE, 9);
    ShortAt(ONCE, 10);
    ShortAt(ONCE, 11);
    ShortAt(ONCE, 12);
    ShortAt(ONCE, 13);
    ShortAt(ONCE, 14);
    ShortAt(ONCE, 15);
    ShortAt(ONCE, 16);
    ShortAt(ONCE, 17);
  }

  lemma ValueDecodes()
    ensures Decodes(VALUE, 0, Instruction(PUSH_ARGUMENT, 0, 0), 1)
    ensures Decodes(VALUE, 1, Instruction(DO_PRIMITIVE, 1, BLOCK_INVOKE), 3)
  {
    ShortAt(VALUE, 0);
  }

  /** What is stored of a context besides its stack. */
  datatype Stored = Stored(info: Info, bytePointer: nat, previous: nat)

  function AllStored(contexts: Store): map<nat, Stored> {
    map id | id in contexts :: Stored(contexts[id].info, contexts[id].bytePointer, contexts[id].previous)
  }

  /** The context at work with its stack, and what is stored of all contexts. */
  datatype Scene = Scene(
    current: nat, bytePointer: nat, stack: seq<Value>, objects: Objects, stored: map<nat, Stored>, next: nat)

  ghost predicate Shows(m: Machine, v: Scene) {
    && m.Running? && Sound(m) && m.current == v.current && v.current in m.contexts && m.bytePointer == v.bytePointer
    && m.stackTop == |v.stack| && Used(m.contexts[v.current].stack, m.stackTop) == v.stack
    && m.objects == v.objects && m.next == v.next && AllStored(m.contexts) == v.stored
  }

  lemma StoredAs(s: Store)
    ensures AllStored(s).Keys == s.Keys
    ensures forall id | id in s ::
      AllStored(s)[id] == Stored(s[id].info, s[id].bytePointer, s[id].previous)
    ensures Infos(s) == map id | id in AllStored(s) :: AllStored(s)[id].info
  {
  }

  /** The next instruction, read off the scene. */
  lemma NextIs(m: Machine, v: Scene, i: Instruction, to: nat)
    requires Shows(m, v) && v.current in v.stored && v.stored[v.current].info.methodId in Reentering().methods
    requires Decodes(Reentering().methods[v.stored[v.current].info.methodId].code, v.bytePointer, i, to)
    ensures m.Running? && m.current in m.contexts
    ensures NextEffect(Reentering(), m) ==
            Execute(Reentering(), Site(map id | id in v.stored :: v.stored[id].info, v.current, v.next),
                    Frame(v.stored[v.current].info, v.stack, to), i, v.objects)
  {
    hide Execute, Complete, InstructionAt, NextOf, Sound, Reentering;
    StoredAs(m.contexts);
  }

  lemma GoShows(elide: bool, m: Machine, v: Scene, to: nat, stack: seq<Value>, objects: Objects)
    requires Shows(m, v) && v.current in v.stored
    requires NextEffect(Reentering(), m) == Go(Frame(v.stored[v.current].info, stack, to), objects)
    ensures Shows(Step(Reentering(), elide, m), v.(bytePointer := to, stack := stack, objects := objects))
  {
    hide NextEffect, Sound, Written, Used;
    StepSound(Reentering(), elide, m);
    var now := Step(Reentering(), elide, m);
    UsedWritten(Reentering(), m.contexts[v.current].stack, stack);
    assert AllStored(now.contexts) == AllStored(m.contexts);
  }

  lemma MakeShows(elide: bool, m: Machine, v: Scene, to: nat, stack: seq<Value>, made: Info)
    requires Shows(m, v) && v.current in v.stored
    requires NextEffect(Reentering(), m) == Make(Frame(v.stored[v.current].info, stack, to), made, v.objects)
    ensures Shows(Step(Reentering(), elide, m),
                  v.(bytePointer := to, stack := stack, stored := v.stored[v.next := Stored(made, 0, NIL_CONTEXT)],
                     next := v.next + 4))
  {
    hide NextEffect, Sound, Written, Used;
    StepSound(Reentering(), elide, m);
    NextIsNew(m);
    var now := Step(Reentering(), elide, m);
    UsedWritten(Reentering(), m.contexts[v.current].stack, stack);
    assert AllStored(now.contexts) == AllStored(m.contexts)[v.next := Stored(made, 0, NIL_CONTEXT)];
  }

  /** What is stored after a call of #value whose result the caller returns. */
  function AfterCall(elide: bool, v: Scene, to: nat, arguments: nat, objects: Objects): Scene
    requires v.current in v.stored
  {
    var caller := v.stored[v.current];
    var info := Info(2, arguments, Room(objects), NIL_CONTEXT, 0, 0);
    Scene(v.next, 0, [], objects[Room(objects) := Object(48, [])],
          v.stored[v.current := caller.(bytePointer := to)]
            [v.next := Stored(info, 0, if elide then caller.previous else v.current)],
          v.next + 4)
  }

  lemma CallShows(elide: bool, m: Machine, v: Scene, to: nat, stack: seq<Value>, arguments: nat, objects: Objects)
    requires Shows(m, v) && v.current in v.stored && ReturnsNext(Reentering(), v.stored[v.current].info, to)
    requires NextEffect(Reentering(), m) ==
             Call(Frame(v.stored[v.current].info, stack, to), 2, arguments, objects)
    ensures Shows(Step(Reentering(), elide, m), AfterCall(elide, v, to, arguments, objects))
  {
    hide NextEffect, Sound, Written, Room, ReturnsNext;
    StepSound(Reentering(), elide, m);
    NextIsNew(m);
    var now := Step(Reentering(), elide, m);
    assert AllStored(now.contexts) == AfterCall(elide, v, to, arguments, objects).stored;
  }

  lemma InvokeShows(elide: bool, m: Machine, v: Scene, block: nat, objects: Objects)
    requires Shows(m, v) && v.current in v.stored && block in v.stored
    requires NextEffect(Reentering(), m) == Invoke(block, objects)
    ensures Shows(Step(Reentering(), elide, m),
                  v.(current := block, bytePointer := v.stored[block].info.blockBytePointer, stack := [],
                     objects := objects,
                     stored := v.stored[block := v.stored[block].(previous := v.stored[v.current].previous)]))
  {
    hide NextEffect, Sound;
    StepSound(Reentering(), elide, m);
    StoredAs(m.contexts);
    var now := Step(Reentering(), elide, m);
    assert AllStored(now.contexts) == v.stored[block := v.stored[block].(previous := v.stored[v.current].previous)];
  }

  /** The instruction at which the current context stands. */
  predicate StandsAt(v: Scene, i: Instruction, to: nat) {
    && v.current in v.stored && v.stored[v.current].info.methodId in Reentering().methods
    && Decodes(Reentering().methods[v.stored[v.current].info.methodId].code, v.bytePointer, i, to)
  }

  lemma PushTemporaryShows(elide: bool, m: Machine, v: Scene, k: nat, to: nat)
    requires Shows(m, v) && StandsAt(v, Instruction(PUSH_TEMPORARY, k, 0), to)
    requires HasField(v.objects, v.stored[v.current].info.temporaries, k)
    ensures Shows(Step(Reentering(), elide, m),
                  v.(bytePointer := to,
                     stack := v.stack + [v.objects[v.stored[v.current].info.temporaries].fields[k]]))
  {
    hide Step, Shows, Decodes, NextEffect, Reentering;
    NextIs(m, v, Instruction(PUSH_TEMPORARY, k, 0), to);
    GoShows(elide, m, v, to, v.stack + [v.objects[v.stored[v.current].info.temporaries].fields[k]], v.objects);
  }

  lemma AssignTemporaryShows(elide: bool, m: Machine, v: Scene, k: nat, to: nat)
    requires Shows(m, v) && StandsAt(v, Instruction(ASSIGN_TEMPORARY, k, 0), to) && v.stack != []
    requires HasField(v.objects, v.stored[v.current].info.temporaries, k)
    ensures var at := v.stored[v.current].info.temporaries;
      Shows(Step(Reentering(), elide, m),
            v.(bytePointer := to,
               objects := v.objects[at := Assigned(v.objects[at], k, v.stack[|v.stack| - 1])]))
  {
    hide Step, Shows, Decodes, NextEffect, Reentering;
    NextIs(m, v, Instruction(ASSIGN_TEMPORARY, k, 0), to);
    var at := v.stored[v.current].info.temporaries;
    GoShows(elide, m, v, to, v.stack, v.objects[at := Assigned(v.objects[at], k, v.stack[|v.stack| - 1])]);
  }

  lemma MarkShows(elide: bool, m: Machine, v: Scene, rest: seq<Value>, value: Value, to: nat)
    requires Shows(m, v) && StandsAt(v, Instruction(MARK_ARGUMENTS, 1, 0), to) && v.stack == rest + [value]
    ensures Shows(Step(Reentering(), elide, m),
                  v.(bytePointer := to, stack := rest + [Room(v.objects)],
                     objects := v.objects[Room(v.objects) := Object(48, [value])]))
  {
    hide Step, Shows, Decodes, NextEffect, Room;
    NextIs(m, v, Instruction(MARK_ARGUMENTS, 1, 0), to);
    assert v.stack[..|rest|] == rest && v.stack[|rest|..] == [value];
    GoShows(elide, m, v, to, rest + [Room(v.objects)], v.objects[Room(v.objects) := Object(48, [value])]);
  }

  /** #value is sent, in front of a return. */
  lemma SendShows(elide: bool, m: Machine, v: Scene, rest: seq<Value>, arguments: Value, to: nat)
    requires Shows(m, v) && StandsAt(v, Instruction(SEND_MESSAGE, 0, 0), to) && v.stack == rest + [arguments]
    requires v.stored[v.current].info.methodId == 1 && HasField(v.objects, arguments, 0)
    requires ReturnsNext(Reentering(), v.stored[v.current].info, to)
    ensures Shows(Step(Reentering(), elide, m), AfterCall(elide, v, to, arguments, v.objects))
  {
    hide Step, Shows, Decodes, NextEffect, Room, ONCE, VALUE, ReturnsNext;
    NextIs(m, v, Instruction(SEND_MESSAGE, 0, 0), to);
    assert v.stack[..|v.stack| - 1] == rest;
    CallShows(elide, m, v, to, rest, arguments, v.objects);
  }

  /** The method of #value runs: the block, its receiver, takes its place. */
  lemma ValueInvokes(elide: bool, m: Machine, v: Scene)
    requires Shows(m, v) && v.current in v.stored && v.current != 8 && v.bytePointer == 0 && v.stack == []
    requires v.stored[v.current].info.methodId == 2
    requires HasField(v.objects, v.stored[v.current].info.arguments, 0)
    requires v.objects[v.stored[v.current].info.arguments].fields[0] == 8
    requires 8 in v.stored && v.stored[8].info == BLOCK_INFO && 44 in v.objects
    ensures Shows(Steps(Reentering(), elide, m, 2), Invoked(v))
  {
    hide Step, Shows, Decodes, NextEffect, Room, ONCE, VALUE;
    ValueDecodes();
    var m1 := Step(Reentering(), elide, m);
    NextIs(m, v, Instruction(PUSH_ARGUMENT, 0, 0), 1);
    GoShows(elide, m, v, 1, [8], v.objects);
    var v1 := v.(bytePointer := 1, stack := [8]);
    NextIs(m1, v1, Instruction(DO_PRIMITIVE, 1, BLOCK_INVOKE), 3);
    var temporaries := v.objects[44].fields;
    var rest := v1.stack[..0];
    assert temporaries[..0] + rest[|rest| - 0..] + temporaries[0..] == temporaries;
    assert v.objects[44 := v.objects[44].(fields := temporaries)] == v.objects;
    InvokeShows(elide, m1, v1, 8, v.objects);
    TwoSteps(Reentering(), elide, m);
  }

  function Invoked(v: Scene): Scene
    requires v.current in v.stored && 8 in v.stored
  {
    v.(current := 8, bytePointer := 3, stack := [],
       stored := v.stored[8 := v.stored[8].(previous := v.stored[v.current].previous)])
  }

  lemma TwoSteps(p: Program, elide: bool, m: Machine)
    ensures Steps(p, elide, m, 2) == Step(p, elide, Step(p, elide, m))
  {
    hide Step;
    assert Steps(p, elide, Step(p, elide, m), 1) == Step(p, elide, Step(p, elide, m));
  }

  const HOME_INFO := Info(1, 40, 44, NIL_CONTEXT, 0, 0)
  const BLOCK_INFO := Info(1, 40, 44, 4, 0, 3)

  function Scene0(): Scene {
    Scene(4, 0, [], Objects0(), map[4 := Stored(HOME_INFO, 0, NIL_CONTEXT)], 8)
  }

  /** The method has called #value of the block. */
  function Scene1(elide: bool): Scene {
    AfterCall(elide, Scene(4, 16, [100], Objects1(),
                           map[4 := Stored(HOME_INFO, 0, NIL_CONTEXT), 8 := Stored(BLOCK_INFO, 0, NIL_CONTEXT)], 12),
              17, 100, Objects1())
  }

  lemma MethodSends(elide: bool, m: Machine)
    requires Shows(m, Scene0())
    ensures Shows(Steps(Reentering(), elide, m, 4), Scene1(elide))
  {
    hide Step, Shows, NextEffect, Decodes, ONCE, VALUE, AfterCall, Execute;
    var m2 := MethodStores(elide, m);
    var m3 := Step(Reentering(), elide, m2);
    var v := Scene(4, 15, [8], Objects0()[44 := Object(48, [20, 8])],
                   map[4 := Stored(HOME_INFO, 0, NIL_CONTEXT), 8 := Stored(BLOCK_INFO, 0, NIL_CONTEXT)], 12);
    OnceDecodes();
    OnceBytes();
    MarkShows(elide, m2, v, [], 8, 16);
    var v3 := v.(bytePointer := 16, stack := [100], objects := Objects1());
    assert [] + [Room(v.objects)] == [100];
    SendShows(elide, m3, v3, [], 100, 17);
    FourSteps(Reentering(), elide, m);
  }

  lemma MethodStores(elide: bool, m: Machine) returns (m2: Machine)
    requires Shows(m, Scene0())
    ensures m2 == Step(Reentering(), elide, Step(Reentering(), elide, m))
    ensures Shows(m2, Scene(4, 15, [8], Objects0()[44 := Object(48, [20, 8])],
                            map[4 := Stored(HOME_INFO, 0, NIL_CONTEXT), 8 := Stored(BLOCK_INFO, 0, NIL_CONTEXT)], 12))
  {
    hide Step, Shows, NextEffect, Decodes, ONCE, VALUE;
    OnceDecodes();
    var v := Scene0();
    var m1 := Step(Reentering(), elide, m);
    m2 := Step(Reentering(), elide, m1);
    NextIs(m, v, Instruction(PUSH_BLOCK, 0, 14), 3);
    MakeShows(elide, m, v, 14, [8], BLOCK_INFO);
    var v1 := v.(bytePointer := 14, stack := [8], stored := v.stored[8 := Stored(BLOCK_INFO, 0, NIL_CONTEXT)],
                 next := 12);
    AssignTemporaryShows(elide, m1, v1, 1, 15);
    assert [20, 20][1 := 8] == [20, 8];
  }

  lemma FourSteps(p: Program, elide: bool, m: Machine)
    ensures Steps(p, elide, m, 4) == Step(p, elide, Step(p, elide, Step(p, elide, Step(p, elide, m))))
  {
    TwoSteps(p, elide, m);
    TwoSteps(p, elide, Step(p, elide, Step(p, elide, m)));
    StepsSplit(p, elide, m, 2, 2);
  }

  /** The block at its beginning. */
  predicate InBlock(v: Scene) {
    && v.current == 8 && v.bytePointer == 3 && v.stack == [] && 8 in v.stored && v.stored[8].info == BLOCK_INFO
  }

  /** The block finds the flag unset, sets it and calls #value of itself. */
  lemma BlockSends(elide: bool, m: Machine, v: Scene)
    requires Shows(m, v) && InBlock(v) && v.objects == Objects2()
    ensures Shows(Steps(Reentering(), elide, m, 7), AfterCall(elide, v, 12, 108, Objects3()))
  {
    hide Step, Shows, NextEffect, Decodes, ONCE, VALUE, AfterCall, Execute;
    OnceDecodes();
    OnceBytes();
    var m4, v4 := BlockNotes(elide, m, v);
    PushTemporaryShows(elide, m4, v4, 1, 10);
    var m5, v5 := Step(Reentering(), elide, m4), v4.(bytePointer := 10, stack := [24, 8]);
    assert [24] + [8] == [24, 8];
    MarkShows(elide, m5, v5, [24], 8, 11);
    var m6, v6 := Step(Reentering(), elide, m5), v5.(bytePointer := 11, stack := [24, 108], objects := Objects3());
    assert [24] + [Room(v5.objects)] == [24, 108];
    SendShows(elide, m6, v6, [24], 108, 12);
    CallFrom(elide, v6, v, 12, 108, Objects3());
    TwoSteps(Reentering(), elide, m4);
    assert Steps(Reentering(), elide, m6, 1) == Step(Reentering(), elide, m6);
    StepsSplit(Reentering(), elide, m4, 2, 1);
    StepsSplit(Reentering(), elide, m, 4, 3);
  }

  /** A call does not depend on where in its code the caller stood. */
  lemma CallFrom(elide: bool, v: Scene, w: Scene, to: nat, arguments: nat, objects: Objects)
    requires v.current == w.current && v.stored == w.stored && v.next == w.next && v.current in v.stored
    ensures AfterCall(elide, v, to, arguments, objects) == AfterCall(elide, w, to, arguments, objects)
  {
  }

  lemma BlockNotes(elide: bool, m: Machine, v: Scene) returns (m4: Machine, v4: Scene)
    requires Shows(m, v) && InBlock(v) && v.objects == Objects2()
    ensures m4 == Steps(Reentering(), elide, m, 4)
    ensures v4 == v.(bytePointer := 9, stack := [24], objects := Objects2()[44 := Object(48, [24, 8])]) && Shows(m4, v4)
  {
    hide Step, Shows, NextEffect, Decodes, ONCE, VALUE;
    OnceDecodes();
    PushTemporaryShows(elide, m, v, 0, 4);
    assert [] + [20] == [20];
    var m1, v1 := Step(Reentering(), elide, m), v.(bytePointer := 4, stack := [20]);
    NextIs(m1, v1, Instruction(DO_SPECIAL, BRANCH_IF_TRUE, 13), 7);
    GoShows(elide, m1, v1, 7, [], v1.objects);
    var m2, v2 := Step(Reentering(), elide, m1), v1.(bytePointer := 7, stack := []);
    NextIs(m2, v2, Instruction(PUSH_CONSTANT, 11, 0), 8);
    GoShows(elide, m2, v2, 8, [24], v2.objects);
    var m3, v3 := Step(Reentering(), elide, m2), v2.(bytePointer := 8, stack := [24]);
    AssignTemporaryShows(elide, m3, v3, 0, 9);
    assert [20, 8][0 := 24] == [24, 8];
    m4, v4 := Step(Reentering(), elide, m3), v3.(bytePointer := 9, objects := Objects2()[44 := Object(48, [24, 8])]);
    FourSteps(Reentering(), elide, m);
  }

  /** When it comes again, the block finds the flag set and is about to return the receiver. */
  lemma BlockReturns(elide: bool, m: Machine, v: Scene)
    requires Shows(m, v) && InBlock(v) && v.objects == Objects4()
    ensures var m2 := Steps(Reentering(), elide, m, 2);
      && Shows(m2, v.(bytePointer := 13)) && m2.Running? && m2.current in m2.contexts
      && NextEffect(Reentering(), m2) == Give(1, Objects4(), false)
  {
    hide Step, Shows, NextEffect, Decodes, ONCE, VALUE, SendToReceiver, SendBinary, SendUnary, DoPrimitive, PushBlock,
         PushConstant, MarkArguments;
    OnceDecodes();
    PushTemporaryShows(elide, m, v, 0, 4);
    assert [] + [24] == [24];
    var m1, v1 := Step(Reentering(), elide, m), v.(bytePointer := 4, stack := [24]);
    NextIs(m1, v1, Instruction(DO_SPECIAL, BRANCH_IF_TRUE, 13), 7);
    GoShows(elide, m1, v1, 13, [], v1.objects);
    var m2, v2 := Step(Reentering(), elide, m1), v1.(bytePointer := 13, stack := []);
    NextIs(m2, v2, Instruction(DO_SPECIAL, SELF_RETURN, 0), 14);
    TwoSteps(Reentering(), elide, m);
  }

  /** The scene in which the block has been invoked for the second time. */
  function Scene2(elide: bool): Scene {
    Invoked(AfterCall(elide, Invoked(Scene1(elide)), 12, 108, Objects3()))
  }

  lemma Scenes(elide: bool)
    ensures InBlock(Invoked(Scene1(elide))) && Invoked(Scene1(elide)).objects == Objects2()
    ensures InBlock(Scene2(elide)) && Scene2(elide).objects == Objects4()
    ensures Scene2(elide).stored[8] == Stored(BLOCK_INFO, 12, if elide then NIL_CONTEXT else 8)
  {
  }

  lemma BeginningShown()
    ensures Shows(Beginning(), Scene0())
  {
    StoredAs(Beginning().contexts);
  }

  /** Fifteen steps lead to the block's second invocation. */
  lemma BlockAgain(elide: bool)
    ensures Shows(Steps(Reentering(), elide, Beginning(), 15), Scene2(elide))
  {
    hide Step, Shows, NextEffect, ONCE, VALUE;
    var p := Reentering();
    BeginningShown();
    Scenes(elide);
    var m4 := Steps(p, elide, Beginning(), 4);
    MethodSends(elide, Beginning());
    var m6 := Steps(p, elide, m4, 2);
    ValueInvokes(elide, m4, Scene1(elide));
    var m13 := Steps(p, elide, m6, 7);
    BlockSends(elide, m6, Invoked(Scene1(elide)));
    ValueInvokes(elide, m13, AfterCall(elide, Invoked(Scene1(elide)), 12, 108, Objects3()));
    StepsSplit(p, elide, m6, 7, 2);
    StepsSplit(p, elide, m4, 2, 9);
    StepsSplit(p, elide, Beginning(), 4, 11);
  }

  /** The block, once it has been given a value, returns it to itself, for ever. */
  ghost predicate Spins(m: Machine) {
    && m.Running? && m.current == 8 && m.bytePointer == 12 && 8 in m.contexts && m.contexts[8].previous == 8
    && m.contexts[8].info.methodId == 1 && m.contexts[8].bytePointer == 12
    && Used(m.contexts[8].stack, m.stackTop) != []
  }

  lemma SpinDecodes()
    ensures Decodes(ONCE, 12, Instruction(DO_SPECIAL, STACK_RETURN, 0), 13)
  {
    hide Decodes;
    OnceDecodes();
  }

  lemma SpinEffect(m: Machine) returns (value: Value)
    requires Spins(m)
    ensures NextEffect(Reentering(), m) == Give(value, m.objects, false)
  {
    hide ONCE, VALUE, InstructionAt, Complete, NextOf, Used;
    SpinDecodes();
    var f := TopFrame(m);
    value := f.stack[|f.stack| - 1];
    ReturnGives(Reentering(), SiteOf(m), f.(bytePointer := 13), m.objects);
  }

  lemma ReturnGives(p: Program, s: Site, f: Frame, objects: Objects)
    requires f.info.methodId in p.methods && f.stack != []
    ensures Execute(p, s, f, Instruction(DO_SPECIAL, STACK_RETURN, 0), objects) == Give(Top(f), objects, false)
  {
  }

  lemma SpinStep(m: Machine)
    requires Spins(m)
    ensures Spins(Step(Reentering(), false, m))
  {
    hide NextEffect, Reentering, Used, Written;
    var value := SpinEffect(m);
    var c := m.contexts[8];
    UsedWritten(Reentering(), c.stack, Used(c.stack, c.stackTop) + [value]);
  }

  lemma {:induction false} SpinsOn(m: Machine, n: nat)
    requires Spins(m)
    ensures Steps(Reentering(), false, m, n).Running?
    decreases n
  {
    hide Step;
    if n > 0 {
      SpinStep(m);
      SpinsOn(Step(Reentering(), false, m), n - 1);
    }
  }

  lemma LastStep(elide: bool, m: Machine)
    requires Shows(m, Scene2(elide).(bytePointer := 13))
    requires m.Running? && m.current in m.contexts && NextEffect(Reentering(), m) == Give(1, Objects4(), false)
    ensures elide ==> Step(Reentering(), true, m) == Returned(1, Objects4())
    ensures !elide ==> Spins(Step(Reentering(), false, m))
  {
    Scenes(elide);
    StoredAs(m.contexts);
    hide NextEffect, ONCE, VALUE, Scene2, Sound;
    var c := m.contexts[8];
    UsedWritten(Reentering(), c.stack, Used(c.stack, c.stackTop) + [1]);
  }

  /**
   * A process that starts with a method and comes to invoke a block while that is at work: the
   * eliding machine returns the receiver after eighteen steps, and the linking machine never
   * returns.
   */
  lemma ReenteredBlock(n: nat)
    ensures Steps(Reentering(), true, Beginning(), 18) == Returned(1, Objects4())
    ensures Steps(Reentering(), false, Beginning(), n).Running?
  {
    hide Step, Shows, NextEffect, Spins, Scene2, Objects4;
    Scenes(true);
    Scenes(false);
    EighteenSteps(true);
    EighteenSteps(false);
    var l := Steps(Reentering(), false, Beginning(), 18);
    SpinsOn(l, n);
    StepsSplit(Reentering(), false, Beginning(), 18, n);
    if !Steps(Reentering(), false, Beginning(), n).Running? {
      Stays(Reentering(), false, Steps(Reentering(), false, Beginning(), n), 18);
      StepsSplit(Reentering(), false, Beginning(), n, 18);
    }
  }

  lemma EighteenSteps(elide: bool)
    ensures var m := Steps(Reentering(), elide, Beginning(), 18);
      if elide then m == Returned(1, Objects4()) else Spins(m)
  {
    hide Step, Shows, NextEffect, Spins, Scene2, Objects4;
    BlockAgain(elide);
    Scenes(elide);
    var m15 := Steps(Reentering(), elide, Beginning(), 15);
    BlockReturns(elide, m15, Scene2(elide));
    var m17 := Steps(Reentering(), elide, m15, 2);
    LastStep(elide, m17);
    assert Steps(Reentering(), elide, m17, 1) == Step(Reentering(), elide, m17);
    StepsSplit(Reentering(), elide, m15, 2, 1);
    StepsSplit(Reentering(), elide, Beginning(), 15, 3);
  }

  /** So that run is not orderly, though it starts as every process does. */
  lemma ReenteredIsDisorderly()
    ensures Starts(Reentering(), Beginning(), []) && !Orderly(Reentering(), Beginning())
  {
    BeginningShown();
    hide Step, Orderly, Objects4;
    if Orderly(Reentering(), Beginning()) {
      ReenteredBlock(0);
      var end := Steps(Reentering(), true, Beginning(), 18);
      SameResult(Reentering(), Beginning(), [], end);
      var n: nat :| Steps(Reentering(), false, Beginning(), n) == end;
      ReenteredBlock(n);
    }
  }
}
