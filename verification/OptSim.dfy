/** What the passes leave runs like what they started from. */
module OptSim {
  import opened OptSem
  import opened OptPasses
  import opened OptInvariant

  /** The pass over pushes and pops, for every instruction at once. */
  function Elim(il: seq<Ins>): (r: seq<Ins>)
    ensures |r| == |il|
  {
    seq(|il|, i requires 0 <= i < |il| =>
      if IsPair(il, i) || (i > 0 && IsPair(il, i - 1)) then il[i].(opc := NOP) else il[i])
  }

  /** The jump pass is over. */
  ghost predicate Done(il0: seq<Ins>, il: seq<Ins>, dead: set<nat>) {
    Lifts(il0) && Tidy(il0) && exists suc :: Inv(il0, il, dead, |il0|, suc)
  }

  lemma DoneFacts(il0: seq<Ins>, il: seq<Ins>, dead: set<nat>)
    requires Done(il0, il, dead)
    ensures |il| == |il0| && InRange(il) && Lifts(il0) && Tidy(il0) && RefsKept(il0, il)
    ensures forall k | 0 <= k < |il| :: Changed(il0, il, dead, k) && il[k].arg == il0[k].arg && il[k].line == il0[k].line
  {
    hide Lifts, Tidy, Changed, RefsKept, Lands;
  }

  /** An instruction that the original run may be at while the new one follows. */
  ghost predicate Good(il: seq<Ins>, dead: set<nat>, i: nat) {
    i < |il| && i !in dead && !(i > 0 && IsPair(il, i - 1))
  }

  /** What some jump lands on, no plain jump itself, is there and keeps that reference. */
  lemma LandedKept(il0: seq<Ins>, il: seq<Ins>, dead: set<nat>, t: nat, k: nat)
    requires Done(il0, il, dead) && t < |il0| && !il0[t].opc.JUMP? && k < |il0| && il0[k].jmpto == t
    ensures |il| == |il0| && Changed(il0, il, dead, t) && k in il0[t].refs && |il[t].refs| == |il0[t].refs| > 0
    ensures il0[t].opc.NOP? ==> k in il[t].refs
  {
    DoneFacts(il0, il, dead);
    hide Done, Lands, Tidy, Changed;
  }

  /** An instruction nothing took away, and that is no `nop` to drop, is put out. */
  lemma StaysGood(il0: seq<Ins>, il: seq<Ins>, dead: set<nat>, t: nat)
    requires |il| == |il0| && t < |il0| && !il0[t].opc.JUMP? && Changed(il0, il, dead, t)
    requires !IsPair(il, t) && !(t > 0 && IsPair(il, t - 1)) && (il0[t].opc.NOP? ==> RealRefs(il[t].refs) > 0)
    ensures Good(il, dead, t) && Emitted(Elim(il)[t])
  {
    hide Lands, RealRefs;
  }

  /** The jump pass makes no new pair. */
  lemma PairBefore(il0: seq<Ins>, il: seq<Ins>, dead: set<nat>, t: nat)
    requires Done(il0, il, dead) && t < |il| && IsPair(il, t)
    ensures |il| == |il0| && IsPair(il0, t)
  {
    DoneFacts(il0, il, dead);
    assert Changed(il0, il, dead, t) && Changed(il0, il, dead, t + 1);
    assert |il[t].refs| == |il0[t].refs| && |il[t + 1].refs| == |il0[t + 1].refs|;
    hide Done, Lands, Tidy, RefsKept, Changed;
  }

  /** What a jump relies on is there, and is put out. */
  lemma SafeGood(il0: seq<Ins>, il: seq<Ins>, dead: set<nat>, t: nat)
    requires Done(il0, il, dead) && Safe(il0, t)
    ensures |il| == |il0| && Good(il, dead, t) && Emitted(Elim(il)[t])
  {
    hide Done, Lands, Good, Emitted, Elim, Tidy, Lifts, RefsKept, Changed, IsPair;
    DoneFacts(il0, il, dead);
    PairRefs(il, t);
    if t > 0 {
      PairRefs(il, t - 1);
    }
    if k :| 0 <= k < |il0| && il0[k].jmpto == t {
      LandedKept(il0, il, dead, t, k);
      if il0[t].opc.NOP? {
        RealRef(il[t].refs, k);
      }
    } else {
      if IsPair(il, t) {
        PairBefore(il0, il, dead, t);
      }
      KeepsHere(il0, il, dead, t - 1);
    }
    StaysGood(il0, il, dead, t);
  }

  lemma PairRefs(il: seq<Ins>, t: nat)
    requires t < |il|
    ensures IsPair(il, t) ==> il[t].opc.NEW? && il[t].refs == [] && t + 1 < |il| && il[t + 1].refs == []
  {
  }

  lemma KeepsHere(il0: seq<Ins>, il: seq<Ins>, dead: set<nat>, t: nat)
    requires |il| == |il0| && t < |il0| && Keeps(il0[t].opc) && Changed(il0, il, dead, t)
    ensures il[t].opc == il0[t].opc
  {
    hide Lands;
  }

  lemma {:induction false} RealRef(refs: seq<int>, k: nat)
    requires k in refs
    ensures RealRefs(refs) > 0
  {
    if refs[|refs| - 1] != k {
      RealRef(refs[..|refs| - 1], k);
    }
  }

  // ---------------------------------------------------------------------------
  // Chains, run

  /** A jump of opcode `o` is taken with this stack. */
  predicate Taken(sem: Sem, o: Opc, stack: seq<Obj>, world: nat) {
    && (o.JUMP_TRUE_N? ==> stack != [] && sem.truth(stack[|stack| - 1], world))
    && (o.JUMP_FALSE_N? ==> stack != [] && !sem.truth(stack[|stack| - 1], world))
  }

  lemma {:induction false} LinksRun(sem: Sem, il: seq<Ins>, o: Opc, t: nat, end: nat, n: nat, stack: seq<Obj>, world: nat)
    requires Links(il, o, t, end, n) && Taken(sem, o, stack, world)
    ensures t < |il| && end < |il| && Run(sem, il, Cfg(t, stack, world), n) == Next(Cfg(end, stack, world))
    decreases n
  {
    if n > 0 {
      assert 0 <= il[t].jmpto < |il|;
      LinksRun(sem, il, o, il[t].jmpto, end, n - 1, stack, world);
    }
  }

  lemma LandsRun(sem: Sem, il: seq<Ins>, o: Opc, t: int, end: nat, stack: seq<Obj>, world: nat) returns (n: nat)
    requires Lands(il, o, t, end) && Taken(sem, o, stack, world)
    ensures 0 <= t < |il| && end < |il| && Run(sem, il, Cfg(t, stack, world), n) == Next(Cfg(end, stack, world))
  {
    var m: nat :| Links(il, o, t, end, m) || LinksBefore(il, o, t, end, m);
    if Links(il, o, t, end, m) {
      LinksRun(sem, il, o, t, end, m, stack, world);
      n := m;
    } else {
      LinksRun(sem, il, o, t, end - 1, m, stack, world);
      RunPlus(sem, il, Cfg(t, stack, world), m, Cfg(end - 1, stack, world), 1);
      assert Exec(sem, il, Cfg(end - 1, stack, world)) == Next(Cfg(end, stack, world));
      n := m + 1;
    }
  }

  // ---------------------------------------------------------------------------
  // The two runs side by side

  /** The original run is at `c`, the new one at `k`: perhaps behind, with nothing left to
      do before it gets there. */
  ghost predicate Beside(il: seq<Ins>, dead: set<nat>, c: Cfg, d: Cfg) {
    && Good(il, dead, c.pc) && d.pc <= c.pc && d.stack == c.stack && d.world == c.world
    && forall m | d.pc <= m < c.pc :: Elim(il)[m].opc.NOP?
  }

  /** A step of the new run that is not just catching up: what the original run does. */
  ghost predicate Matches(sem: Sem, il0: seq<Ins>, il: seq<Ins>, dead: set<nat>, c: Cfg, next: Step, n: nat) {
    n > 0
    && match next
       case Next(d) => Run(sem, il0, c, n).Next? && Beside(il, dead, Run(sem, il0, c, n).c, d)
       case end => Run(sem, il0, c, n) == end
  }

  lemma OneStep(sem: Sem, il0: seq<Ins>, c: Cfg)
    ensures Run(sem, il0, c, 1) == Exec(sem, il0, c)
  {
    if Exec(sem, il0, c).Next? {
      assert Run(sem, il0, Exec(sem, il0, c).c, 0) == Exec(sem, il0, c);
    }
  }

  /** The instruction after one that falls through is good, a pair aside. */
  lemma FallGood(il0: seq<Ins>, il: seq<Ins>, dead: set<nat>, i: nat)
    requires Done(il0, il, dead) && i + 1 < |il| == |il0| && Good(il, dead, i) && Kept(il0, il, i) && !il0[i].opc.JUMP?
    ensures IsPair(il, i) || Good(il, dead, i + 1)
  {
    DoneFacts(il0, il, dead);
    assert Changed(il0, il, dead, i + 1);
    hide Done, Lands, Tidy, Lifts, RefsKept;
  }

  lemma LandsSafe(il0: seq<Ins>, o: Opc, t: int, end: int)
    requires Lands(il0, o, t, end)
    ensures Safe(il0, end)
  {
  }

  /** A jump, taken: the original run goes on to where the new one lands. */
  lemma JumpMatches(sem: Sem, il0: seq<Ins>, il: seq<Ins>, dead: set<nat>, c: Cfg, o: Opc, to: int, stack: seq<Obj>, world: nat, end: nat)
    returns (n: nat)
    requires Done(il0, il, dead) && Lands(il0, o, to, end) && Taken(sem, o, stack, world)
    requires Exec(sem, il0, c) == Goto(il0, to, stack, world)
    ensures n > 0 && Run(sem, il0, c, n) == Next(Cfg(end, stack, world)) && |il| == |il0| && Good(il, dead, end)
  {
    hide Exec, Run, Done, Lands, Good, Emitted, Elim, Taken;
    LandsSafe(il0, o, to, end);
    SafeGood(il0, il, dead, end);
    var m := LandsRun(sem, il0, o, to, end, stack, world);
    OneStep(sem, il0, c);
    RunPlus(sem, il0, c, 1, Cfg(to, stack, world), m);
    n := 1 + m;
  }

  /** An instruction that is what it was. */
  lemma KeptMatches(sem: Sem, il0: seq<Ins>, il: seq<Ins>, dead: set<nat>, c: Cfg) returns (n: nat)
    requires Done(il0, il, dead) && |il| == |il0| && Good(il, dead, c.pc) && Kept(il0, il, c.pc)
    ensures Matches(sem, il0, il, dead, c, Exec(sem, Elim(il), c), n)
  {
    hide Done, Lands, Kept, Matches, Exec, Elim, Good, IsPair, Run;
    var i := c.pc;
    GoodRange(il, dead, i);
    if IsPair(il, i) {
      n := PairMatches(sem, il0, il, dead, c);
    } else if i + 1 < |il| && !il0[i].opc.JUMP? {
      FallGood(il0, il, dead, i);
      n := StepMatches(sem, il0, il, dead, c);
    } else {
      n := StepMatches(sem, il0, il, dead, c);
    }
  }

  lemma PairFacts(il0: seq<Ins>, il: seq<Ins>, dead: set<nat>, i: nat)
    requires Done(il0, il, dead) && |il| == |il0| && i < |il| && IsPair(il, i) && Kept(il0, il, i)
    ensures il0[i].opc.NEW? && i + 2 < |il0| && il0[i + 1].opc.POP? && Good(il, dead, i + 2)
  {
    DoneFacts(il0, il, dead);
    assert Changed(il0, il, dead, i + 1);
    assert il0[i + 1].opc.POP? && i + 2 < |il0| by { hide Tidy, RefsKept, Lands; }
    AfterPair(il0, il, dead, i);
    hide Done, Lands, Tidy, Lifts, RefsKept, Changed;
  }

  /** Pushing a value and popping it again. */
  lemma PairRun(sem: Sem, il: seq<Ins>, c: Cfg)
    requires c.pc + 2 < |il| && il[c.pc].opc.NEW? && il[c.pc + 1].opc.POP?
    ensures Run(sem, il, c, 2) == Next(Cfg(c.pc + 2, c.stack, c.world))
  {
    var i := c.pc;
    var v := sem.new_(il[i].opc.kind, il[i].arg, c.world);
    var c1 := Cfg(i + 1, c.stack + [v], c.world);
    assert Exec(sem, il, c) == Next(c1);
    assert (c.stack + [v])[..|c.stack|] == c.stack;
    assert Exec(sem, il, c1) == Next(Cfg(i + 2, c.stack, c.world));
    OneStep(sem, il, c1);
    assert Run(sem, il, c, 2) == Run(sem, il, c1, 1);
  }

  /** Pushing a value and popping it again, against doing nothing twice. */
  lemma PairMatches(sem: Sem, il0: seq<Ins>, il: seq<Ins>, dead: set<nat>, c: Cfg) returns (n: nat)
    requires Done(il0, il, dead) && |il| == |il0| && Good(il, dead, c.pc) && Kept(il0, il, c.pc) && IsPair(il, c.pc)
    ensures Matches(sem, il0, il, dead, c, Exec(sem, Elim(il), c), n)
  {
    hide Done, Kept, Run, Good, Exec, IsPair;
    var i := c.pc;
    GoodRange(il, dead, i);
    PairFacts(il0, il, dead, i);
    PairRun(sem, il0, c);
    PairGone(sem, il, c);
    n := 2;
    assert Beside(il, dead, Cfg(i + 2, c.stack, c.world), Cfg(i + 1, c.stack, c.world));
    hide Beside, Elim;
  }

  lemma PairGone(sem: Sem, il: seq<Ins>, c: Cfg)
    requires c.pc + 1 < |il| && IsPair(il, c.pc)
    ensures Elim(il)[c.pc].opc.NOP? && Elim(il)[c.pc + 1].opc.NOP?
    ensures Exec(sem, Elim(il), c) == Next(Cfg(c.pc + 1, c.stack, c.world))
  {
  }

  lemma AfterPair(il0: seq<Ins>, il: seq<Ins>, dead: set<nat>, i: nat)
    requires Done(il0, il, dead) && |il| == |il0| && i + 2 < |il| && IsPair(il, i)
    ensures Good(il, dead, i + 2)
  {
    DoneFacts(il0, il, dead);
    assert Changed(il0, il, dead, i + 2);
    hide Done, Lands, Tidy, Lifts, RefsKept;
  }

  /** The same instruction in two programs, if it is no jump, does the same. */
  lemma PlainStep(sem: Sem, a: seq<Ins>, b: seq<Ins>, c: Cfg)
    requires |a| == |b| && c.pc < |a| && a[c.pc].opc == b[c.pc].opc && a[c.pc].arg == b[c.pc].arg && !IsJump(a[c.pc].opc)
    ensures Exec(sem, a, c) == Exec(sem, b, c)
    ensures Exec(sem, a, c).Next? ==> Exec(sem, a, c).c.pc == c.pc + 1 < |a|
  {
  }

  /** One step of each, to the same state. */
  lemma Together(sem: Sem, il0: seq<Ins>, il: seq<Ins>, dead: set<nat>, c: Cfg)
    requires Exec(sem, il0, c) == Exec(sem, Elim(il), c)
    requires Exec(sem, il0, c).Next? ==> Good(il, dead, Exec(sem, il0, c).c.pc)
    ensures Matches(sem, il0, il, dead, c, Exec(sem, Elim(il), c), 1)
  {
    hide Exec, Good, Elim;
    OneStep(sem, il0, c);
    if Exec(sem, il0, c).Next? {
      BesideItself(il, dead, Exec(sem, il0, c).c);
    }
    hide Run, Beside;
  }

  lemma StillThere(il: seq<Ins>, dead: set<nat>, i: nat)
    requires Good(il, dead, i) && !IsPair(il, i)
    ensures Elim(il)[i] == il[i]
  {
  }

  lemma KeptOpc(il0: seq<Ins>, il: seq<Ins>, i: nat)
    requires |il| == |il0| && i < |il| && Kept(il0, il, i)
    ensures il[i].opc == il0[i].opc
  {
    hide Lands;
  }

  /** Anything else that is what it was. */
  lemma StepMatches(sem: Sem, il0: seq<Ins>, il: seq<Ins>, dead: set<nat>, c: Cfg) returns (n: nat)
    requires Done(il0, il, dead) && |il| == |il0| && Good(il, dead, c.pc) && Kept(il0, il, c.pc) && !IsPair(il, c.pc)
    requires c.pc + 1 < |il| && !il0[c.pc].opc.JUMP? ==> Good(il, dead, c.pc + 1)
    ensures Matches(sem, il0, il, dead, c, Exec(sem, Elim(il), c), n)
  {
    hide Done, Lands, Exec, Elim, Matches, Run, Good, IsPair;
    DoneFacts(il0, il, dead);
    GoodRange(il, dead, c.pc);
    KeptOpc(il0, il, c.pc);
    hide Lifts, Tidy, RefsKept, Changed, Kept;
    StillThere(il, dead, c.pc);
    if IsJump(il0[c.pc].opc) {
      n := BranchMatches(sem, il0, il, dead, c);
    } else {
      n := 1;
      PlainStep(sem, il0, Elim(il), c);
      Together(sem, il0, il, dead, c);
    }
  }

  /** Where a jump instruction goes, and with what stack. */
  lemma BranchMatches(sem: Sem, il0: seq<Ins>, il: seq<Ins>, dead: set<nat>, c: Cfg) returns (n: nat)
    requires Done(il0, il, dead) && |il| == |il0| && Good(il, dead, c.pc) && Kept(il0, il, c.pc) && !IsPair(il, c.pc)
    requires c.pc + 1 < |il| && !il0[c.pc].opc.JUMP? ==> Good(il, dead, c.pc + 1)
    requires IsJump(il0[c.pc].opc) && Elim(il)[c.pc] == il[c.pc]
    ensures Matches(sem, il0, il, dead, c, Exec(sem, Elim(il), c), n)
  {
    hide Done, Lands, Safe, Kept, Run, Exec, JumpsNow, Goto, Elim, Good, Taken, IsPair, Beside;
    var i, new_ := c.pc, Elim(il);
    GoodRange(il, dead, i);
    var to, end := il0[i].jmpto, il[i].jmpto;
    BranchFacts(il0, il, dead, i);
    KeptOpc(il0, il, i);
    JumpStep(sem, il0, new_, c);
    n := 1;
    if JumpsNow(sem, il0, c) {
      var d := Exec(sem, new_, c).c;
      n := JumpMatches(sem, il0, il, dead, c, il0[i].opc, to, d.stack, d.world, end);
      BesideItself(il, dead, d);
    } else {
      Together(sem, il0, il, dead, c);
    }
  }

  lemma BesideItself(il: seq<Ins>, dead: set<nat>, d: Cfg)
    requires Good(il, dead, d.pc)
    ensures Beside(il, dead, d, d)
  {
  }

  lemma LiftedJump(il: seq<Ins>, i: nat)
    requires Lifts(il) && i < |il| && IsJump(il[i].opc)
    ensures i + 1 < |il| && 0 <= il[i].jmpto < |il|
  {
  }

  lemma BranchFacts(il0: seq<Ins>, il: seq<Ins>, dead: set<nat>, i: nat)
    requires Done(il0, il, dead) && |il| == |il0| && i < |il| && Kept(il0, il, i) && IsJump(il0[i].opc)
    ensures Lands(il0, il0[i].opc, il0[i].jmpto, il[i].jmpto) && 0 <= il[i].jmpto < |il| && 0 <= il0[i].jmpto < |il0|
    ensures i + 1 < |il|
  {
    hide Done, Lands, Tidy, RefsKept, Changed, Lifts;
    DoneFacts(il0, il, dead);
    LiftedJump(il0, i);
    LandsSafe(il0, il0[i].opc, il0[i].jmpto, il[i].jmpto);
  }

  /** The same jump in two programs: it is taken in both or in neither. */
  lemma JumpStep(sem: Sem, a: seq<Ins>, b: seq<Ins>, c: Cfg)
    requires |a| == |b| && c.pc + 1 < |a| && a[c.pc].opc == b[c.pc].opc && IsJump(a[c.pc].opc)
    requires 0 <= a[c.pc].jmpto < |a| && 0 <= b[c.pc].jmpto < |b|
    ensures JumpsNow(sem, a, c) ==>
      && Exec(sem, b, c).Next? && Exec(sem, b, c).c.pc == b[c.pc].jmpto
      && var d := Exec(sem, b, c).c;
         Exec(sem, a, c) == Goto(a, a[c.pc].jmpto, d.stack, d.world) && Taken(sem, a[c.pc].opc, d.stack, d.world)
    ensures !JumpsNow(sem, a, c) ==> Exec(sem, b, c) == Exec(sem, a, c) && (Exec(sem, a, c).Next? ==> Exec(sem, a, c).c.pc == c.pc + 1)
    ensures !JumpsNow(sem, a, c) ==> !a[c.pc].opc.JUMP?
    ensures !Exec(sem, a, c).Returned?
  {
  }

  /** The jump at `c` is taken. */
  predicate JumpsNow(sem: Sem, il: seq<Ins>, c: Cfg)
    requires c.pc < |il|
  {
    var top := if c.stack == [] then 0 else c.stack[|c.stack| - 1];
    match il[c.pc].opc
    case JUMP => true
    case JUMP_TRUE => c.stack != [] && sem.truth(top, c.world)
    case JUMP_FALSE => c.stack != [] && !sem.truth(top, c.world)
    case JUMP_TRUE_N => c.stack != [] && sem.truth(top, c.world)
    case JUMP_FALSE_N => c.stack != [] && !sem.truth(top, c.world)
    case o => IsJump(o) && sem.branch(o, c.stack, c.world).Did? && sem.branch(o, c.stack, c.world).taken
  }

  /** A conditional jump over a jump, against the opposite one. */
  lemma FlippedMatches(sem: Sem, il0: seq<Ins>, il: seq<Ins>, dead: set<nat>, c: Cfg) returns (n: nat)
    requires Done(il0, il, dead) && |il| == |il0| && Good(il, dead, c.pc) && Flipped(il0, il, c.pc)
    ensures Matches(sem, il0, il, dead, c, Exec(sem, Elim(il), c), n)
  {
    hide Done, Lands, Good, Safe, Exec, Matches, Elim;
    GoodRange(il, dead, c.pc);
    if c.stack == [] {
      n := FlippedFails(sem, il0, il, dead, c);
    } else if sem.truth(c.stack[|c.stack| - 1], c.world) == il0[c.pc].opc.JUMP_TRUE? {
      n := FlippedGoes(sem, il0, il, dead, c);
    } else {
      n := FlippedFalls(sem, il0, il, dead, c);
    }
  }

  lemma FlippedFails(sem: Sem, il0: seq<Ins>, il: seq<Ins>, dead: set<nat>, c: Cfg) returns (n: nat)
    requires Done(il0, il, dead) && |il| == |il0| && c.pc < |il| && Flipped(il0, il, c.pc) && c.stack == []
    ensures Matches(sem, il0, il, dead, c, Exec(sem, Elim(il), c), n)
  {
    FlippedFacts(il0, il, dead, c.pc);
    FlipStep(sem, il0, Elim(il), c);
    OneStep(sem, il0, c);
    hide Done, Lands, Good, Safe, Exec, Elim;
    n := 1;
  }

  /** The original jump is taken, over the other one; the new one is not. */
  lemma FlippedGoes(sem: Sem, il0: seq<Ins>, il: seq<Ins>, dead: set<nat>, c: Cfg) returns (n: nat)
    requires Done(il0, il, dead) && |il| == |il0| && c.pc < |il| && Flipped(il0, il, c.pc) && c.stack != []
    requires sem.truth(c.stack[|c.stack| - 1], c.world) == il0[c.pc].opc.JUMP_TRUE?
    ensures Matches(sem, il0, il, dead, c, Exec(sem, Elim(il), c), n)
  {
    hide Done, Lands, Run, Good, Safe, Exec, Elim;
    var i, rest := c.pc, c.stack[..|c.stack| - 1];
    FlippedFacts(il0, il, dead, i);
    FlipStep(sem, il0, Elim(il), c);
    n := JumpMatches(sem, il0, il, dead, c, il0[i].opc, il0[i].jmpto, rest, c.world, i + 2);
  }

  /** Falling through to a jump, and taking that. */
  lemma FallAndJump(sem: Sem, il: seq<Ins>, c: Cfg, rest: seq<Obj>)
    requires c.pc + 1 < |il| && il[c.pc + 1].opc.JUMP? && 0 <= il[c.pc + 1].jmpto < |il|
    requires Exec(sem, il, c) == Next(Cfg(c.pc + 1, rest, c.world))
    ensures Run(sem, il, c, 2) == Next(Cfg(il[c.pc + 1].jmpto, rest, c.world))
  {
    var c1 := Cfg(c.pc + 1, rest, c.world);
    assert Exec(sem, il, c1) == Next(Cfg(il[c.pc + 1].jmpto, rest, c.world));
    hide Exec;
    OneStep(sem, il, c);
    OneStep(sem, il, c1);
    RunPlus(sem, il, c, 1, c1, 1);
  }

  /** The original jump falls through to the other one; the new one goes there itself. */
  lemma FlippedFalls(sem: Sem, il0: seq<Ins>, il: seq<Ins>, dead: set<nat>, c: Cfg) returns (n: nat)
    requires Done(il0, il, dead) && |il| == |il0| && c.pc < |il| && Flipped(il0, il, c.pc) && c.stack != []
    requires sem.truth(c.stack[|c.stack| - 1], c.world) != il0[c.pc].opc.JUMP_TRUE?
    ensures Matches(sem, il0, il, dead, c, Exec(sem, Elim(il), c), n)
  {
    hide Done, Lands, Run, Good, Safe, Exec, Elim;
    var i, rest := c.pc, c.stack[..|c.stack| - 1];
    FlippedFacts(il0, il, dead, i);
    FlipStep(sem, il0, Elim(il), c);
    FallAndJump(sem, il0, c, rest);
    n := 2;
    assert Beside(il, dead, Cfg(il0[i + 1].jmpto, rest, c.world), Cfg(il0[i + 1].jmpto, rest, c.world));
  }

  /** The two of a flipped pair, on the same stack. */
  lemma FlipStep(sem: Sem, a: seq<Ins>, b: seq<Ins>, c: Cfg)
    requires |a| == |b| && c.pc + 1 < |a| && 0 <= a[c.pc].jmpto < |a| && 0 <= b[c.pc].jmpto < |b|
    requires (a[c.pc].opc.JUMP_FALSE? && b[c.pc].opc.JUMP_TRUE?) || (a[c.pc].opc.JUMP_TRUE? && b[c.pc].opc.JUMP_FALSE?)
    ensures c.stack == [] ==> Exec(sem, a, c) == Exec(sem, b, c) == Failed
    ensures c.stack != [] ==>
      var rest, i := c.stack[..|c.stack| - 1], c.pc;
      if sem.truth(c.stack[|c.stack| - 1], c.world) == a[i].opc.JUMP_TRUE? then
        Exec(sem, a, c) == Goto(a, a[i].jmpto, rest, c.world) == Next(Cfg(a[i].jmpto, rest, c.world))
        && Exec(sem, b, c) == Next(Cfg(i + 1, rest, c.world))
      else
        Exec(sem, a, c) == Next(Cfg(i + 1, rest, c.world)) && Exec(sem, b, c) == Next(Cfg(b[i].jmpto, rest, c.world))
  {
  }

  lemma FlippedFacts(il0: seq<Ins>, il: seq<Ins>, dead: set<nat>, i: nat)
    requires Done(il0, il, dead) && |il| == |il0| && i < |il| && Flipped(il0, il, i)
    ensures i + 2 < |il| && 0 <= il0[i + 1].jmpto < |il| && 0 <= il0[i].jmpto < |il| && Good(il, dead, il0[i + 1].jmpto) && Good(il, dead, i + 2)
    ensures Elim(il)[i] == il[i] && Elim(il)[i + 1].opc.NOP?
  {
    hide Done, Lands, Tidy, RefsKept, Changed, Lifts, Good, Safe, Emitted;
    DoneFacts(il0, il, dead);
    LiftedJump(il0, i);
    LiftedJump(il0, i + 1);
    LandsSafe(il0, il0[i].opc, il0[i].jmpto, i + 2);
    SafeGood(il0, il, dead, i + 2);
    FlippedOver(il0, il, i);
    BehindSafe(il0, i);
    SafeGood(il0, il, dead, il0[i + 1].jmpto);
  }

  /** A jump that a conditional jump leads over may rely on where it lands. */
  lemma BehindSafe(il: seq<Ins>, i: nat)
    requires Lifts(il) && Tidy(il) && i + 1 < |il| && JumpsOver(il, i)
    ensures Safe(il, il[i + 1].jmpto)
  {
    LiftedJump(il, i + 1);
    hide Links;
  }

  /** A jump to the next instruction, against doing nothing. */
  lemma SkippedMatches(sem: Sem, il0: seq<Ins>, il: seq<Ins>, dead: set<nat>, c: Cfg) returns (n: nat)
    requires Done(il0, il, dead) && |il| == |il0| && Good(il, dead, c.pc) && Skipped(il0, il, c.pc)
    ensures Matches(sem, il0, il, dead, c, Exec(sem, Elim(il), c), n)
  {
    var i := c.pc;
    hide Done, Lands, Run, Good, Safe;
    GoodRange(il, dead, i);
    LandsSafe(il0, JUMP, il0[i].jmpto, i + 1);
    SafeGood(il0, il, dead, i + 1);
    n := JumpMatches(sem, il0, il, dead, c, JUMP, il0[i].jmpto, c.stack, c.world, i + 1);
  }

  /** Every step of the new run that is not just catching up is matched. */
  lemma StepSim(sem: Sem, il0: seq<Ins>, il: seq<Ins>, dead: set<nat>, c: Cfg) returns (n: nat)
    requires Done(il0, il, dead) && Good(il, dead, c.pc)
    ensures Matches(sem, il0, il, dead, c, Exec(sem, Elim(il), c), n)
  {
    hide Done, Matches, Good, Lands, Kept, Flipped, Skipped, Exec, Elim;
    DoneFacts(il0, il, dead);
    GoodRange(il, dead, c.pc);
    GoodChanged(il0, il, dead, c.pc);
    if Kept(il0, il, c.pc) {
      n := KeptMatches(sem, il0, il, dead, c);
    } else if Flipped(il0, il, c.pc) {
      n := FlippedMatches(sem, il0, il, dead, c);
    } else {
      n := SkippedMatches(sem, il0, il, dead, c);
    }
  }

  lemma GoodChanged(il0: seq<Ins>, il: seq<Ins>, dead: set<nat>, i: nat)
    requires |il| == |il0| && Good(il, dead, i) && Changed(il0, il, dead, i)
    ensures Kept(il0, il, i) || Flipped(il0, il, i) || Skipped(il0, il, i)
  {
  }

  /** Catching up. */
  lemma CatchUp(sem: Sem, il: seq<Ins>, dead: set<nat>, c: Cfg, d: Cfg)
    requires Beside(il, dead, c, d) && d.pc < c.pc
    ensures Exec(sem, Elim(il), d) == Next(d.(pc := d.pc + 1)) && Beside(il, dead, c, d.(pc := d.pc + 1))
  {
    hide Good;
    GoodRange(il, dead, c.pc);
    assert Elim(il)[d.pc].opc.NOP?;
  }

  lemma GoodRange(il: seq<Ins>, dead: set<nat>, i: nat)
    requires Good(il, dead, i)
    ensures i < |il|
  {
  }

  /** If the new run ends, the original one ends the same way. */
  lemma {:induction false} NewEnds(sem: Sem, il0: seq<Ins>, il: seq<Ins>, dead: set<nat>, c: Cfg, d: Cfg, m: nat) returns (n: nat)
    requires Done(il0, il, dead) && Beside(il, dead, c, d) && !Run(sem, Elim(il), d, m).Next?
    ensures Run(sem, il0, c, n) == Run(sem, Elim(il), d, m)
    decreases m
  {
    hide Done, Good, Exec, Elim;
    if d.pc < c.pc {
      CatchUp(sem, il, dead, c, d);
      n := NewEnds(sem, il0, il, dead, c, d.(pc := d.pc + 1), m - 1);
    } else {
      n := StepSim(sem, il0, il, dead, c);
      if Exec(sem, Elim(il), d).Next? {
        var c1 := Run(sem, il0, c, n).c;
        var rest := NewEnds(sem, il0, il, dead, c1, Exec(sem, Elim(il), d).c, m - 1);
        RunPlus(sem, il0, c, n, c1, rest);
        n := n + rest;
      }
    }
  }

  /** If the original run ends, the new one ends the same way. */
  lemma {:induction false} OldEnds(sem: Sem, il0: seq<Ins>, il: seq<Ins>, dead: set<nat>, c: Cfg, d: Cfg, n: nat) returns (m: nat)
    requires Done(il0, il, dead) && Beside(il, dead, c, d) && !Run(sem, il0, c, n).Next?
    ensures Run(sem, Elim(il), d, m) == Run(sem, il0, c, n)
    decreases n, c.pc - d.pc
  {
    hide Done, Good, Exec, Elim;
    if d.pc < c.pc {
      CatchUp(sem, il, dead, c, d);
      m := OldEnds(sem, il0, il, dead, c, d.(pc := d.pc + 1), n);
      m := m + 1;
    } else {
      var k := StepSim(sem, il0, il, dead, c);
      if Exec(sem, Elim(il), d).Next? {
        var c1 := Run(sem, il0, c, k).c;
        RunRest(sem, il0, c, k, c1, n);
        m := OldEnds(sem, il0, il, dead, c1, Exec(sem, Elim(il), d).c, n - k);
        m := m + 1;
      } else {
        m := 1;
        RunSame(sem, il0, c, k, n);
      }
    }
  }

  /** A run ends in one way only. */
  lemma {:induction false} RunSame(sem: Sem, il: seq<Ins>, c: Cfg, n: nat, m: nat)
    requires !Run(sem, il, c, n).Next? && !Run(sem, il, c, m).Next?
    ensures Run(sem, il, c, n) == Run(sem, il, c, m)
    decreases n
  {
    if n > 0 && m > 0 && Exec(sem, il, c).Next? {
      RunSame(sem, il, Exec(sem, il, c).c, n - 1, m - 1);
    }
  }
}
