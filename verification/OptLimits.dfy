/** Programs the optimiser does not get right: what each clause of `Tidy` is there for. */
module OptLimits {
  import opened OptSem
  import opened OptPasses
  import opened OptInvariant
  import opened OptSim
  import opened OptEmit

  /** The jump pass, from instruction `i` on, makes `r` of `il`. */
  ghost predicate Reduces(il: seq<Ins>, i: nat, suc: bool, r: seq<Ins>)
    requires i <= |il|
    decreases |il| - i
  {
    if i == |il| then r == il
    else InRange(il) && Reduces(Iterate(il, i, suc).0, i + 1, Iterate(il, i, suc).1, r)
  }

  /** A jump, and anything else. */
  function Jump(o: Opc, offset: int): Instr {
    Instr(o, offset, 0)
  }

  function Plain(o: Opc): Instr {
    Instr(o, 0, 0)
  }

  function Il(o: Opc, offset: int, to: int, refs: seq<int>): Ins {
    Ins(o, offset, 0, -1, to, refs)
  }

  /** Every value is true, and no other branch or operation works. */
  function AllTrue(): Sem {
    Sem((o, w) => true, (k, a, w) => k, (o, s, w) => Error, (o, a, s, w) => Error)
  }

  lemma {:induction false} NoJump(p: seq<Instr>, t: int, n: nat)
    requires n <= |p| && forall i | 0 <= i < n && IsJump(p[i].opc) :: i + p[i].arg != t
    ensures JumpsTo(p, t, n) == []
  {
    if n > 0 {
      NoJump(p, t, n - 1);
    }
  }

  lemma {:induction false} OneJump(p: seq<Instr>, t: int, n: nat, k: nat)
    requires k < n <= |p| && forall i | 0 <= i < n :: (IsJump(p[i].opc) && i + p[i].arg == t) <==> i == k
    ensures JumpsTo(p, t, n) == [k]
  {
    if n - 1 > k {
      OneJump(p, t, n - 1, k);
    } else {
      NoJump(p, t, n - 1);
    }
  }

  /** The last jump is the second one to `t`. */
  lemma TwoJumps(p: seq<Instr>, t: int, n: nat, k: nat)
    requires k < n - 2 < |p| - 1 && IsJump(p[n - 2].opc) && n - 2 + p[n - 2].arg == t
    requires !(IsJump(p[n - 1].opc) && n - 1 + p[n - 1].arg == t)
    requires forall i | 0 <= i < n - 2 :: (IsJump(p[i].opc) && i + p[i].arg == t) <==> i == k
    ensures JumpsTo(p, t, n) == [k, n - 2]
  {
    OneJump(p, t, n - 2, k);
  }

  /** Lifting, instruction by instruction, when there is a `return` already. */
  lemma LiftIs(p: seq<Instr>, il: seq<Ins>)
    requires |il| == |p| > 0 && p[|p| - 1].opc == RETURN && WellJumps(p)
    requires forall i | 0 <= i < |p| :: il[i] == Lifted(p, i) && il[i].jmpto < |p|
    ensures Lift(p) == il
  {
    hide JumpsTo;
    assert forall i | 0 <= i < |p| && IsJump(p[i].opc) :: il[i].jmpto == i + p[i].arg;
    assert !NeedsReturn(p);
  }

  // ---------------------------------------------------------------------------
  // Jumping back

  /** The jump behind a jump is the target of a later one. */
  function JumpBack(): seq<Instr> {
    [Jump(JUMP, 3), Jump(JUMP, 4), Plain(RETURN), Plain(NEW(0)), Jump(JUMP_TRUE, -3), Plain(NEW(1)), Plain(RETURN)]
  }

  function JumpBackIl(opc1: Opc): seq<Ins> {
    [Il(JUMP, 3, 3, []), Il(opc1, 4, 5, [4]), Il(RETURN, 0, -1, []), Il(NEW(0), 0, -1, [0]), Il(JUMP_TRUE, -3, 1, []),
     Il(NEW(1), 0, -1, [1]), Il(RETURN, 0, -1, [])]
  }

  lemma JumpBackLifted()
    ensures WellJumps(JumpBack()) && Lift(JumpBack()) == JumpBackIl(JUMP)
  {
    hide JumpsTo;
    var p := JumpBack();
    OneJump(p, 3, 7, 0);
    OneJump(p, 5, 7, 1);
    OneJump(p, 1, 7, 4);
    NoJump(p, 0, 7);
    NoJump(p, 2, 7);
    NoJump(p, 4, 7);
    NoJump(p, 6, 7);
    LiftIs(p, JumpBackIl(JUMP));
  }

  lemma JumpBackFirst()
    ensures var a, b := JumpBackIl(JUMP), JumpBackIl(NOP);
            && InRange(a) && InRange(b) && Iterate(a, 0, false) == (a, true) && Iterate(a, 1, true) == (b, true)
  {
    var a, b := JumpBackIl(JUMP), JumpBackIl(NOP);
    assert ThreadEnd(a, 0, 3, 7) == 3 && ThreadEnd(a, 1, 5, 7) == 5;
    assert Threaded(a, 0) == a && Threaded(a, 1) == a;
    assert a[1 := a[1].(opc := NOP)] == b;
  }

  lemma JumpBackIdle(i: nat, suc: bool)
    requires 2 <= i < 7
    ensures var b := JumpBackIl(NOP); InRange(b) && Iterate(b, i, suc) == (b, false)
  {
    var b := JumpBackIl(NOP);
    assert Threaded(b, i) == b;
  }

  lemma JumpBackReduced()
    ensures Reduces(JumpBackIl(JUMP), 0, false, JumpBackIl(NOP))
  {
    hide Iterate;
    var a, b := JumpBackIl(JUMP), JumpBackIl(NOP);
    JumpBackFirst();
    JumpBackIdle(2, true);
    forall i | 3 <= i < 7 ensures Iterate(b, i, false) == (b, false) {
      JumpBackIdle(i, false);
    }
    assert |b| == 7 && |a| == 7;
    hide JumpBackIl;
    assert Reduces(b, 5, false, b);
    assert Reduces(b, 3, false, b);
    assert Reduces(b, 2, true, b);
  }

  /** A step, and the rest. */
  lemma First(sem: Sem, il: seq<Ins>, c: Cfg, d: Cfg, n: nat)
    requires Exec(sem, il, c) == Next(d)
    ensures Run(sem, il, c, n + 1) == Run(sem, il, d, n)
  {
  }

  lemma Last(sem: Sem, il: seq<Ins>, c: Cfg)
    requires !Exec(sem, il, c).Next?
    ensures Run(sem, il, c, 1) == Exec(sem, il, c)
  {
  }

  lemma ProgramAt(p: seq<Instr>, i: nat)
    requires i < |p|
    ensures |Program(p)| == |p| + 1 && Program(p)[i].opc == p[i].opc && Program(p)[i].arg == p[i].arg
    ensures IsJump(p[i].opc) ==> Program(p)[i].jmpto == i + p[i].arg
  {
    hide JumpsTo;
    assert Program(p)[i] == Lifted(p, i);
  }

  /** The few steps that are needed, with every value true. */
  lemma StepIs(il: seq<Ins>, c: Cfg)
    requires c.pc + 1 < |il|
    ensures var sem, i := AllTrue(), il[c.pc];
            && (i.opc.JUMP? && 0 <= i.jmpto < |il| ==> Exec(sem, il, c) == Next(c.(pc := i.jmpto)))
            && (i.opc.JUMP_TRUE? && 0 <= i.jmpto < |il| && |c.stack| == 1 ==> Exec(sem, il, c) == Next(Cfg(i.jmpto, [], c.world)))
            && (i.opc.NEW? && c.stack == [] ==> Exec(sem, il, c) == Next(Cfg(c.pc + 1, [i.opc.kind], c.world)))
            && (i.opc.RETURN? ==> Exec(sem, il, c) == Returned(c.stack, c.world))
  {
    if |c.stack| == 1 {
      assert c.stack[..0] == [];
    }
  }

  lemma JumpBackSteps()
    ensures var sem, p := AllTrue(), Program(JumpBack());
            && Exec(sem, p, Cfg(0, [], 0)) == Next(Cfg(3, [], 0)) && Exec(sem, p, Cfg(3, [], 0)) == Next(Cfg(4, [0], 0))
            && Exec(sem, p, Cfg(4, [0], 0)) == Next(Cfg(1, [], 0)) && Exec(sem, p, Cfg(1, [], 0)) == Next(Cfg(5, [], 0))
            && Exec(sem, p, Cfg(5, [], 0)) == Next(Cfg(6, [1], 0)) && Exec(sem, p, Cfg(6, [1], 0)) == Returned([1], 0)
  {
    hide Program, Exec, AllTrue;
    var p := JumpBack();
    assert |p| == 7;
    ProgramAt(p, 0);
    ProgramAt(p, 1);
    ProgramAt(p, 3);
    ProgramAt(p, 4);
    ProgramAt(p, 5);
    ProgramAt(p, 6);
    StepIs(Program(p), Cfg(0, [], 0));
    StepIs(Program(p), Cfg(3, [], 0));
    StepIs(Program(p), Cfg(4, [0], 0));
    StepIs(Program(p), Cfg(1, [], 0));
    StepIs(Program(p), Cfg(5, [], 0));
    StepIs(Program(p), Cfg(6, [1], 0));
  }

  lemma JumpBackIlSteps()
    ensures var sem, il := AllTrue(), JumpBackIl(NOP);
            && Exec(sem, il, Cfg(0, [], 0)) == Next(Cfg(3, [], 0)) && Exec(sem, il, Cfg(3, [], 0)) == Next(Cfg(4, [0], 0))
            && Exec(sem, il, Cfg(4, [0], 0)) == Next(Cfg(1, [], 0)) && Exec(sem, il, Cfg(1, [], 0)) == Next(Cfg(2, [], 0))
            && Exec(sem, il, Cfg(2, [], 0)) == Returned([], 0)
  {
  }

  lemma JumpBackRuns()
    ensures Run(AllTrue(), Program(JumpBack()), Cfg(0, [], 0), 6) == Returned([1], 0)
    ensures Run(AllTrue(), JumpBackIl(NOP), Cfg(0, [], 0), 5) == Returned([], 0)
  {
    hide Run, Exec, Program, JumpBack, JumpBackIl, AllTrue;
    var sem, p, il := AllTrue(), Program(JumpBack()), JumpBackIl(NOP);
    JumpBackSteps();
    JumpBackIlSteps();
    First(sem, p, Cfg(0, [], 0), Cfg(3, [], 0), 5);
    First(sem, p, Cfg(3, [], 0), Cfg(4, [0], 0), 4);
    First(sem, p, Cfg(4, [0], 0), Cfg(1, [], 0), 3);
    First(sem, p, Cfg(1, [], 0), Cfg(5, [], 0), 2);
    First(sem, p, Cfg(5, [], 0), Cfg(6, [1], 0), 1);
    Last(sem, p, Cfg(6, [1], 0));
    First(sem, il, Cfg(0, [], 0), Cfg(3, [], 0), 4);
    First(sem, il, Cfg(3, [], 0), Cfg(4, [0], 0), 3);
    First(sem, il, Cfg(4, [0], 0), Cfg(1, [], 0), 2);
    First(sem, il, Cfg(1, [], 0), Cfg(2, [], 0), 1);
    Last(sem, il, Cfg(2, [], 0));
  }

  /** A jump back to a jump behind a jump falls through: that jump has gone, but only the
      ones to its own target were to be put straight. */
  lemma JumpBackLost()
    ensures var p, il := JumpBack(), JumpBackIl(NOP);
            && WellJumps(p) && Reduces(Lift(p), 0, false, il) && TargetsEmitted(Elim(il))
            && Ends(AllTrue(), Program(p), Cfg(0, [], 0), Returned([1], 0))
            && Ends(AllTrue(), Program(Generated(Elim(il), |il|)), Cfg(0, [], 0), Returned([], 0))
  {
    hide Reduces, Run, Exec, Generated, Program, Lift, Elim, TargetsEmitted, Closed, JumpBackIl, JumpBack;
    var il := JumpBackIl(NOP);
    JumpBackLifted();
    JumpBackReduced();
    JumpBackRuns();
    JumpBackOut();
    var m := CodeEnds(AllTrue(), il, Cfg(0, [], 0), Cfg(0, [], 0), 5);
  }

  lemma JumpBackOut()
    ensures var il := JumpBackIl(NOP); Elim(il) == il && TargetsEmitted(il) && Closed(il) && |il| > 0
  {
    hide RealRefs, Elim, IsPair;
    JumpBackElim();
    JumpBackNop();
  }

  lemma JumpBackElim()
    ensures Elim(JumpBackIl(NOP)) == JumpBackIl(NOP)
  {
    assert forall i | 0 <= i < 7 :: !IsPair(JumpBackIl(NOP), i);
    hide IsPair, JumpBackIl;
  }

  lemma JumpBackNop()
    ensures Emitted(JumpBackIl(NOP)[1])
  {
    assert RealRefs([4]) == 1;
  }

  // ---------------------------------------------------------------------------
  // Jumping on only

  /** The jump behind a conditional jump goes to a jump. */
  function JumpOn(): seq<Instr> {
    [Jump(JUMP_FALSE, 2), Jump(JUMP, 3), Plain(NEW(0)), Jump(JUMP, 2), Jump(JUMP, 1), Plain(RETURN)]
  }

  function JumpOnIl(opc0: Opc, to0: int, opc1: Opc, to1: int, opc4: Opc, ref4: int): seq<Ins> {
    [Il(opc0, 2, to0, []), Il(opc1, 3, to1, []), Il(NEW(0), 0, -1, [0]), Il(JUMP, 2, 5, []), Il(opc4, 1, 5, [ref4]),
     Il(RETURN, 0, -1, [3, 4])]
  }

  lemma JumpOnLifted()
    ensures WellJumps(JumpOn()) && Lift(JumpOn()) == JumpOnIl(JUMP_FALSE, 2, JUMP, 4, JUMP, 1)
  {
    hide JumpsTo;
    var p := JumpOn();
    OneJump(p, 2, 6, 0);
    OneJump(p, 4, 6, 1);
    OneJump(p, 5, 4, 3);
    TwoJumps(p, 5, 6, 3);
    NoJump(p, 0, 6);
    NoJump(p, 1, 6);
    NoJump(p, 3, 6);
    LiftIs(p, JumpOnIl(JUMP_FALSE, 2, JUMP, 4, JUMP, 1));
  }

  lemma JumpOnFirst()
    ensures var a, b := JumpOnIl(JUMP_FALSE, 2, JUMP, 4, JUMP, 1), JumpOnIl(JUMP_TRUE, 4, NOP, 4, JUMP, 1);
            InRange(a) && Iterate(a, 0, false) == (b, false)
  {
    var a, b := JumpOnIl(JUMP_FALSE, 2, JUMP, 4, JUMP, 1), JumpOnIl(JUMP_TRUE, 4, NOP, 4, JUMP, 1);
    assert Threaded(a, 0) == a;
    assert a[0 := a[0].(jmpto := 4, opc := JUMP_TRUE)][1 := a[1].(opc := NOP)] == b;
  }

  lemma JumpOnSecond()
    ensures var b, c := JumpOnIl(JUMP_TRUE, 4, NOP, 4, JUMP, 1), JumpOnIl(JUMP_TRUE, 4, NOP, 5, JUMP, -1);
            InRange(b) && Iterate(b, 1, false) == (c, false)
  {
    var b, c := JumpOnIl(JUMP_TRUE, 4, NOP, 4, JUMP, 1), JumpOnIl(JUMP_TRUE, 4, NOP, 5, JUMP, -1);
    assert StruckOut([1], 1) == [-1];
    assert ThreadEnd(b, 1, 4, 6) == 5;
    assert b[4 := b[4].(refs := [-1])][1 := b[1].(jmpto := 5)] == c;
    assert Threaded(b, 1) == c;
  }

  lemma JumpOnRest()
    ensures var c, d := JumpOnIl(JUMP_TRUE, 4, NOP, 5, JUMP, -1), JumpOnIl(JUMP_TRUE, 4, NOP, 5, NOP, -1);
            && InRange(c) && InRange(d) && Iterate(c, 2, false) == (c, false) && Iterate(c, 3, false) == (c, true)
            && Iterate(c, 4, true) == (d, true) && Iterate(d, 5, true) == (d, false)
  {
    var c, d := JumpOnIl(JUMP_TRUE, 4, NOP, 5, JUMP, -1), JumpOnIl(JUMP_TRUE, 4, NOP, 5, NOP, -1);
    assert ThreadEnd(c, 3, 5, 6) == 5 && ThreadEnd(c, 4, 5, 6) == 5;
    assert c[4 := c[4].(opc := NOP)] == d;
  }

  lemma JumpOnReduced()
    ensures Reduces(JumpOnIl(JUMP_FALSE, 2, JUMP, 4, JUMP, 1), 0, false, JumpOnIl(JUMP_TRUE, 4, NOP, 5, NOP, -1))
  {
    hide Iterate, InRange;
    JumpOnFirst();
    JumpOnSecond();
    JumpOnRest();
    var a, b := JumpOnIl(JUMP_FALSE, 2, JUMP, 4, JUMP, 1), JumpOnIl(JUMP_TRUE, 4, NOP, 4, JUMP, 1);
    var c, d := JumpOnIl(JUMP_TRUE, 4, NOP, 5, JUMP, -1), JumpOnIl(JUMP_TRUE, 4, NOP, 5, NOP, -1);
    assert |a| == |b| == |c| == |d| == 6;
    hide JumpOnIl;
    assert Reduces(d, 5, true, d);
    assert Reduces(c, 3, false, d);
    assert Reduces(c, 2, false, d);
    assert Reduces(b, 1, false, d);
  }

  /** All jumps go forward, and still: when a conditional jump takes over the target of the
      jump behind it, it is not noted there, so the target may go. */
  lemma JumpOnAborts()
    ensures var p, il := JumpOn(), JumpOnIl(JUMP_TRUE, 4, NOP, 5, NOP, -1);
            && WellJumps(p) && (forall i | 0 <= i < |p| && IsJump(p[i].opc) :: p[i].arg > 0)
            && Reduces(Lift(p), 0, false, il) && !TargetsEmitted(Elim(il))
  {
    hide Reduces, Lift;
    var il := JumpOnIl(JUMP_TRUE, 4, NOP, 5, NOP, -1);
    JumpOnLifted();
    JumpOnReduced();
    assert Elim(il) == il;
    assert !Emitted(il[4]) && IsJump(il[0].opc);
  }

  // ---------------------------------------------------------------------------
  // Jumping behind

  /** A jump on one condition lands on one on the opposite condition. */
  function JumpBehind(): seq<Instr> {
    [Jump(JUMP_TRUE_N, 1), Jump(JUMP_FALSE_N, 3), Plain(NEW(0)), Plain(POP), Plain(RETURN)]
  }

  function JumpBehindIl(to0: int): seq<Ins> {
    [Il(JUMP_TRUE_N, 1, to0, []), Il(JUMP_FALSE_N, 3, 4, [0]), Il(NEW(0), 0, -1, []), Il(POP, 0, -1, []), Il(RETURN, 0, -1, [1])]
  }

  lemma JumpBehindLifted()
    ensures WellJumps(JumpBehind()) && Lift(JumpBehind()) == JumpBehindIl(1)
  {
    hide JumpsTo;
    var p := JumpBehind();
    OneJump(p, 1, 5, 0);
    OneJump(p, 4, 5, 1);
    NoJump(p, 0, 5);
    NoJump(p, 2, 5);
    NoJump(p, 3, 5);
    LiftIs(p, JumpBehindIl(1));
  }

  lemma JumpBehindSteps(i: nat)
    requires 0 < i < 5
    ensures var a, b := JumpBehindIl(1), JumpBehindIl(2);
            && InRange(a) && InRange(b) && Iterate(a, 0, false) == (b, false) && Iterate(b, i, false) == (b, false)
  {
    var a, b := JumpBehindIl(1), JumpBehindIl(2);
    assert a[0 := a[0].(jmpto := 2)] == b;
    assert Threaded(a, 0) == b && Threaded(b, i) == b;
  }

  lemma JumpBehindReduced()
    ensures Reduces(JumpBehindIl(1), 0, false, JumpBehindIl(2))
  {
    hide Iterate, InRange;
    var a, b := JumpBehindIl(1), JumpBehindIl(2);
    JumpBehindSteps(1);
    JumpBehindSteps(2);
    JumpBehindSteps(3);
    JumpBehindSteps(4);
    assert |a| == |b| == 5;
    hide JumpBehindIl;
    assert Reduces(b, 3, false, b);
    assert Reduces(b, 1, false, b);
  }

  /** Nor is a jump noted behind a jump on the opposite condition: what is pushed and popped
      there goes, and the jump has no target left. */
  lemma JumpBehindAborts()
    ensures var p, il := JumpBehind(), JumpBehindIl(2);
            WellJumps(p) && Reduces(Lift(p), 0, false, il) && !TargetsEmitted(Elim(il))
  {
    hide Reduces, Lift;
    var il := JumpBehindIl(2);
    JumpBehindLifted();
    JumpBehindReduced();
    assert IsPair(il, 2);
    assert Elim(il)[2].opc.NOP? && !Emitted(Elim(il)[2]) && Elim(il)[0] == il[0];
  }

  /** The same with a `nop`, or a jump to the next instruction, in the place of the pair. */
  function JumpBehindOne(o: Opc): seq<Instr> {
    [Jump(JUMP_TRUE_N, 1), Jump(JUMP_FALSE_N, 2), Jump(o, 1), Plain(RETURN)]
  }

  function JumpBehindOneIl(to0: int, opc2: Opc, to2: int, refs: seq<int>): seq<Ins> {
    [Il(JUMP_TRUE_N, 1, to0, []), Il(JUMP_FALSE_N, 2, 3, [0]), Il(opc2, 1, to2, []), Il(RETURN, 0, -1, refs)]
  }

  lemma JumpBehindOneLifted(o: Opc)
    requires o.NOP? || o.JUMP?
    ensures WellJumps(JumpBehindOne(o))
    ensures Lift(JumpBehindOne(o)) == if o.NOP? then JumpBehindOneIl(1, o, -1, [1]) else JumpBehindOneIl(1, o, 3, [1, 2])
  {
    var p := JumpBehindOne(o);
    var il := if o.NOP? then JumpBehindOneIl(1, o, -1, [1]) else JumpBehindOneIl(1, o, 3, [1, 2]);
    hide JumpsTo;
    OneJump(p, 1, 4, 0);
    NoJump(p, 0, 4);
    NoJump(p, 2, 4);
    if o.NOP? {
      OneJump(p, 3, 4, 1);
    } else {
      TwoJumps(p, 3, 4, 1);
    }
    LiftIs(p, il);
  }

  lemma JumpBehindOneSteps(to2: int, refs: seq<int>, o: Opc)
    requires (o.NOP? && to2 == -1) || (o.JUMP? && to2 == 3)
    ensures var a, b, c := JumpBehindOneIl(1, o, to2, refs), JumpBehindOneIl(2, o, to2, refs), JumpBehindOneIl(2, NOP, to2, refs);
            && InRange(a) && InRange(b) && InRange(c) && Iterate(a, 0, false) == (b, false) && Iterate(b, 1, false) == (b, false)
            && Iterate(b, 2, false) == (c, false) && Iterate(c, 3, false) == (c, false)
  {
    var a, b, c := JumpBehindOneIl(1, o, to2, refs), JumpBehindOneIl(2, o, to2, refs), JumpBehindOneIl(2, NOP, to2, refs);
    assert a[0 := a[0].(jmpto := 2)] == b;
    assert Threaded(a, 0) == b && Threaded(b, 1) == b && Threaded(b, 2) == b && Threaded(c, 3) == c;
    assert b[2 := b[2].(opc := NOP)] == c;
  }

  /** A `nop` nobody refers to is not put out either, and a jump to the next instruction
      becomes one. */
  lemma JumpBehindOneAborts(o: Opc)
    requires o.NOP? || o.JUMP?
    ensures var p := JumpBehindOne(o);
            WellJumps(p) && exists il :: Reduces(Lift(p), 0, false, il) && !TargetsEmitted(Elim(il))
  {
    hide Lift, Iterate, InRange;
    var p := JumpBehindOne(o);
    var to2, refs := if o.NOP? then -1 else 3, if o.NOP? then [1] else [1, 2];
    var a, b, c := JumpBehindOneIl(1, o, to2, refs), JumpBehindOneIl(2, o, to2, refs), JumpBehindOneIl(2, NOP, to2, refs);
    JumpBehindOneLifted(o);
    JumpBehindOneSteps(to2, refs, o);
    assert Reduces(c, 3, false, c);
    assert Reduces(b, 1, false, c);
    assert Reduces(a, 0, false, c);
    assert !Emitted(c[2]);
    assert Elim(c) == c;
  }

  /** And with a jump on the way to the opposite one. */
  function JumpBehindVia(): seq<Instr> {
    [Jump(JUMP_TRUE_N, 1), Jump(JUMP, 2), Plain(RETURN), Jump(JUMP_FALSE_N, 2), Plain(NOP), Plain(RETURN)]
  }

  function JumpBehindViaIl(to0: int, ref1: int): seq<Ins> {
    [Il(JUMP_TRUE_N, 1, to0, []), Il(JUMP, 2, 3, [ref1]), Il(RETURN, 0, -1, []), Il(JUMP_FALSE_N, 2, 5, [1]), Il(NOP, 0, -1, []),
     Il(RETURN, 0, -1, [3])]
  }

  lemma JumpBehindViaLifted()
    ensures WellJumps(JumpBehindVia()) && Lift(JumpBehindVia()) == JumpBehindViaIl(1, 0)
  {
    hide JumpsTo;
    var p := JumpBehindVia();
    OneJump(p, 1, 6, 0);
    OneJump(p, 3, 6, 1);
    OneJump(p, 5, 6, 3);
    NoJump(p, 0, 6);
    NoJump(p, 2, 6);
    NoJump(p, 4, 6);
    LiftIs(p, JumpBehindViaIl(1, 0));
  }

  lemma JumpBehindViaFirst()
    ensures var a, b := JumpBehindViaIl(1, 0), JumpBehindViaIl(4, -1);
            InRange(a) && InRange(b) && Iterate(a, 0, false) == (b, false)
  {
    var a, b := JumpBehindViaIl(1, 0), JumpBehindViaIl(4, -1);
    assert StruckOut([0], 0) == [-1];
    assert ThreadEnd(a, 0, 1, 6) == 3;
    assert a[1 := a[1].(refs := [-1])][0 := a[0].(jmpto := 3)][0 := a[0].(jmpto := 4)] == b;
    assert Threaded(a, 0) == b;
  }

  lemma JumpBehindViaIdle(i: nat, suc: bool)
    requires 0 < i < 6 && (suc ==> i != 1)
    ensures var b := JumpBehindViaIl(4, -1); InRange(b) && Iterate(b, i, suc) == (b, i == 1)
  {
    var b := JumpBehindViaIl(4, -1);
    assert Threaded(b, i) == b;
  }

  lemma JumpBehindViaAborts()
    ensures var p, il := JumpBehindVia(), JumpBehindViaIl(4, -1);
            WellJumps(p) && Reduces(Lift(p), 0, false, il) && !TargetsEmitted(Elim(il))
  {
    hide Lift, Iterate, InRange;
    var a, b := JumpBehindViaIl(1, 0), JumpBehindViaIl(4, -1);
    JumpBehindViaLifted();
    JumpBehindViaFirst();
    JumpBehindViaIdle(2, true);
    forall i | 0 < i < 6 ensures Iterate(b, i, false) == (b, i == 1) {
      JumpBehindViaIdle(i, false);
    }
    assert |a| == |b| == 6;
    assert Elim(b) == b && !Emitted(b[4]) && IsJump(b[0].opc) && b[0].jmpto == 4 && Emitted(b[0]);
    hide JumpBehindViaIl, Elim;
    assert Reduces(b, 5, false, b);
    assert Reduces(b, 3, false, b);
    assert Reduces(b, 2, true, b);
    assert Reduces(b, 1, false, b);
  }

  // ---------------------------------------------------------------------------
  // Jumping round

  /** Two jumps to each other, and one to them. */
  function JumpRound(o: Opc, back: Opc): seq<Instr> {
    [Jump(o, 2), Plain(RETURN), Jump(o, 2), Plain(RETURN), Jump(back, -2)]
  }

  lemma JumpRoundLifted(o: Opc, back: Opc)
    requires Through(o) && (back == o || back == JUMP)
    ensures var il := Lift(JumpRound(o, back));
            && WellJumps(JumpRound(o, back)) && InRange(il) && |il| == 6
            && il[0].opc == il[2].opc == o && il[4].opc == back && il[0].jmpto == 2 && il[2].jmpto == 4 && il[4].jmpto == 2
  {
    hide JumpsTo;
    var p := JumpRound(o, back);
    forall i | 0 <= i < 5 ensures Lift(p)[i] == Lifted(p, i) {
    }
  }

  /** The chain that starts at the first one never ends, as it never comes back to it,
      whichever jump that goes on it starts with. */
  lemma {:induction false} JumpRoundHangs(o: Opc, back: Opc, t: nat, n: nat)
    requires Through(o) && (back == o || back == JUMP) && (t == 2 || t == 4)
    ensures var il := Lift(JumpRound(o, back));
            && WellJumps(JumpRound(o, back)) && InRange(il) && |il| == 6 && il[0].jmpto == 2
            && var end := ThreadEnd(il, 0, t, n); end != 0 && GoesOn(il, il[0].opc, end)
    decreases n
  {
    JumpRoundLifted(o, back);
    hide Lift, JumpRound;
    if n > 0 {
      JumpRoundHangs(o, back, 6 - t, n - 1);
    }
  }

  // ---------------------------------------------------------------------------
  // And programs it does get right

  /** If no jump lands on an unconditional one, and no jump that goes on on one that keeps
      its condition, there is nothing to tidy. */
  lemma PlainTidy(p: seq<Instr>)
    requires WellJumps(p)
    requires forall i | 0 <= i < |p| && IsJump(p[i].opc) && i + p[i].arg < |p| ::
               var to := p[i + p[i].arg].opc; !to.JUMP? && !(Through(p[i].opc) && Keeps(to))
    ensures Tidy(Lift(p))
  {
    var il := Lift(p);
    forall i | 0 <= i < |il| && il[i].jmpto != -1
      ensures 0 <= il[i].jmpto < |il| && !il[il[i].jmpto].opc.JUMP? && !(Through(il[i].opc) && Keeps(il[il[i].jmpto].opc))
    {
      assert il[i] == Lifted(p, i);
      if il[i].jmpto < |p| {
        assert il[il[i].jmpto] == Lifted(p, il[i].jmpto);
      }
    }
    hide Lift, Leads;
  }
}
