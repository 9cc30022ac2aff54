/** Dropping what need not be put out and making jumps relative again; and the optimiser
    as a whole. */
module OptEmit {
  import opened OptSem
  import opened OptPasses
  import opened OptInvariant
  import opened OptSim

  // ---------------------------------------------------------------------------
  // Lifting

  lemma {:induction false} JumpsToHas(p: seq<Instr>, t: int, n: nat, i: nat)
    requires n <= |p| && i < n && IsJump(p[i].opc) && i + p[i].arg == t
    ensures i in JumpsTo(p, t, n)
    decreases n
  {
    if i < n - 1 {
      JumpsToHas(p, t, n - 1, i);
    }
  }

  lemma LiftLifts(p: seq<Instr>)
    requires WellJumps(p)
    ensures Lifts(Lift(p))
  {
    var il := Lift(p);
    forall i | 0 <= i < |il| && il[i].jmpto != -1
      ensures i < |p| && 0 <= il[i].jmpto < |il| && i in il[il[i].jmpto].refs
    {
      JumpsToHas(p, il[i].jmpto, |p|, i);
    }
  }

  /** The `return` behind a program that does not need one is never reached. */
  lemma StepSame(sem: Sem, p: seq<Instr>, c: Cfg)
    requires WellJumps(p) && c.pc < |Lift(p)|
    ensures Exec(sem, Lift(p), c) == Exec(sem, Program(p), c)
    ensures Exec(sem, Lift(p), c).Next? ==> Exec(sem, Lift(p), c).c.pc < |Lift(p)|
  {
    if !NeedsReturn(p) {
      assert Lift(p)[c.pc] == Program(p)[c.pc] == Lifted(p, c.pc);
      assert c.pc == |p| - 1 ==> p[c.pc].opc.RETURN?;
    }
  }

  lemma {:induction false} RunSameProgram(sem: Sem, p: seq<Instr>, c: Cfg, n: nat)
    requires WellJumps(p) && c.pc < |Lift(p)|
    ensures Run(sem, Lift(p), c, n) == Run(sem, Program(p), c, n)
    decreases n
  {
    hide Exec, Lift, Program;
    if n > 0 {
      StepSame(sem, p, c);
      if Exec(sem, Lift(p), c).Next? {
        RunSameProgram(sem, p, Exec(sem, Lift(p), c).c, n - 1);
      }
    }
  }

  // ---------------------------------------------------------------------------
  // Putting out

  /** Jumps have targets, and the last instruction returns. */
  ghost predicate Closed(il: seq<Ins>) {
    && |il| > 0 && il[|il| - 1].opc.RETURN?
    && forall i | 0 <= i < |il| && IsJump(il[i].opc) :: 0 <= il[i].jmpto < |il|
  }

  lemma {:induction false} AddrMore(il: seq<Ins>, i: nat, n: nat)
    requires i <= n <= |il|
    ensures AddrOf(il, i) <= AddrOf(il, n)
    decreases n
  {
    if i < n {
      AddrMore(il, i, n - 1);
    }
  }

  lemma {:induction false} GeneratedAt(il: seq<Ins>, n: nat, i: nat)
    requires i < n <= |il| && Emitted(il[i])
    ensures AddrOf(il, i) < AddrOf(il, n) && Generated(il, n)[AddrOf(il, i)] == Put(il, i)
    decreases n
  {
    if i < n - 1 {
      GeneratedAt(il, n - 1, i);
    }
  }

  /** The generated program is where the intermediate one is, instructions that were not
      put out apart. */
  ghost predicate Located(il: seq<Ins>, c: Cfg, d: Cfg) {
    c.pc < |il| && d == Cfg(AddrOf(il, c.pc), c.stack, c.world)
  }

  lemma SkipStep(sem: Sem, il: seq<Ins>, c: Cfg, d: Cfg)
    requires Closed(il) && Located(il, c, d) && !Emitted(il[c.pc])
    ensures Exec(sem, il, c) == Next(c.(pc := c.pc + 1)) && Located(il, c.(pc := c.pc + 1), d)
  {
    assert c.pc != |il| - 1;
  }

  /** A jump keeps its target. */
  lemma PutTarget(il: seq<Ins>, i: nat)
    requires Closed(il) && i < |il| && Emitted(il[i])
    ensures var q := Generated(il, |il|);
            var a := AddrOf(il, i);
            && a < |q| && Program(q)[a].opc == il[i].opc && AddrOf(il, i + 1) == a + 1
            && (!IsJump(il[i].opc) ==> Program(q)[a].arg == il[i].arg)
            && (IsJump(il[i].opc) ==> Program(q)[a].jmpto == AddrOf(il, il[i].jmpto))
  {
    GeneratedAt(il, |il|, i);
    var q := Generated(il, |il|);
    assert Program(q)[AddrOf(il, i)] == Lifted(q, AddrOf(il, i));
  }

  lemma {:induction false} EmitStep(sem: Sem, il: seq<Ins>, c: Cfg, d: Cfg)
    requires Closed(il) && Located(il, c, d) && Emitted(il[c.pc])
    ensures var code := Program(Generated(il, |il|));
            match Exec(sem, il, c)
            case Next(c1) => Exec(sem, code, d).Next? && Located(il, c1, Exec(sem, code, d).c)
            case end => Exec(sem, code, d) == end
  {
    var i := c.pc;
    PutTarget(il, i);
    if i + 1 < |il| {
      AddrMore(il, i + 1, |il|);
    }
    if IsJump(il[i].opc) {
      AddrMore(il, il[i].jmpto, |il|);
    }
    hide AddrOf, Generated, Emitted, Closed;
    assert il[i].opc.RETURN? || i + 1 < |il|;
  }

  lemma {:induction false} CodeEnds(sem: Sem, il: seq<Ins>, c: Cfg, d: Cfg, n: nat) returns (m: nat)
    requires Closed(il) && Located(il, c, d) && !Run(sem, il, c, n).Next?
    ensures Run(sem, Program(Generated(il, |il|)), d, m) == Run(sem, il, c, n)
    decreases n
  {
    hide Exec, Closed, Program, Generated, AddrOf, Emitted;
    if !Emitted(il[c.pc]) {
      SkipStep(sem, il, c, d);
      m := CodeEnds(sem, il, c.(pc := c.pc + 1), d, n - 1);
    } else {
      EmitStep(sem, il, c, d);
      if Exec(sem, il, c).Next? {
        m := CodeEnds(sem, il, Exec(sem, il, c).c, Exec(sem, Program(Generated(il, |il|)), d).c, n - 1);
        m := m + 1;
      } else {
        m := 1;
      }
    }
  }

  lemma {:induction false} CodeFrom(sem: Sem, il: seq<Ins>, c: Cfg, d: Cfg, m: nat) returns (n: nat)
    requires Closed(il) && Located(il, c, d) && !Run(sem, Program(Generated(il, |il|)), d, m).Next?
    ensures Run(sem, il, c, n) == Run(sem, Program(Generated(il, |il|)), d, m)
    decreases m, |il| - c.pc
  {
    hide Exec, Closed, Program, Generated, AddrOf, Emitted;
    if !Emitted(il[c.pc]) {
      SkipStep(sem, il, c, d);
      n := CodeFrom(sem, il, c.(pc := c.pc + 1), d, m);
      n := n + 1;
    } else {
      EmitStep(sem, il, c, d);
      if Exec(sem, il, c).Next? {
        n := CodeFrom(sem, il, Exec(sem, il, c).c, Exec(sem, Program(Generated(il, |il|)), d).c, m - 1);
        n := n + 1;
      } else {
        n := 1;
      }
    }
  }

  // ---------------------------------------------------------------------------
  // The optimiser as a whole

  /** Every jump that is put out has a target that is put out. */
  ghost predicate TargetsEmitted(il: seq<Ins>) {
    forall i | 0 <= i < |il| && IsJump(il[i].opc) && Emitted(il[i]) :: 0 <= il[i].jmpto < |il| && Emitted(il[il[i].jmpto])
  }

  lemma JumpSafe(il0: seq<Ins>, il: seq<Ins>, dead: set<nat>, i: nat)
    requires Done(il0, il, dead) && |il| == |il0| && i < |il| && IsJump(il[i].opc)
    ensures Safe(il0, il[i].jmpto)
  {
    hide Done, Lands, Tidy, Lifts, RefsKept, Safe;
    DoneFacts(il0, il, dead);
    assert Changed(il0, il, dead, i);
    if Kept(il0, il, i) {
      BranchFacts(il0, il, dead, i);
      LandsSafe(il0, il0[i].opc, il0[i].jmpto, il[i].jmpto);
    } else {
      FlippedOver(il0, il, i);
      BehindSafe(il0, i);
    }
  }

  lemma LastReturns(il0: seq<Ins>, il: seq<Ins>, dead: set<nat>)
    requires Done(il0, il, dead)
    ensures |il| == |il0| > 0 && Elim(il)[|il| - 1].opc.RETURN?
  {
    DoneFacts(il0, il, dead);
    assert Changed(il0, il, dead, |il| - 1);
    hide Done, Lands, Tidy, RefsKept;
  }

  /** What the passes leave can be put out. */
  lemma DoneClosed(il0: seq<Ins>, il: seq<Ins>, dead: set<nat>)
    requires Done(il0, il, dead)
    ensures Closed(Elim(il)) && TargetsEmitted(Elim(il))
  {
    hide Done, Safe, Emitted;
    DoneFacts(il0, il, dead);
    LastReturns(il0, il, dead);
    var r := Elim(il);
    forall i | 0 <= i < |r| && IsJump(r[i].opc) ensures 0 <= r[i].jmpto < |r| && Emitted(r[r[i].jmpto]) {
      JumpSafe(il0, il, dead, i);
      SafeRange(il0, il[i].jmpto);
      SafeGood(il0, il, dead, il[i].jmpto);
    }
  }

  lemma SafeRange(il: seq<Ins>, t: int)
    requires Safe(il, t)
    ensures 0 <= t < |il|
  {
  }

  lemma StartBeside(il0: seq<Ins>, il: seq<Ins>, dead: set<nat>, c: Cfg)
    requires Done(il0, il, dead) && c.pc == 0
    ensures Beside(il, dead, c, c)
  {
    DoneFacts(il0, il, dead);
    assert |il| > 0 && Changed(il0, il, dead, 0);
    hide Done, Lands, Tidy, RefsKept;
  }

  /** The optimised program runs to the same end as the original one, or both run for
      ever. */
  lemma SameRuns(p: seq<Instr>, il: seq<Ins>, dead: set<nat>, sem: Sem, stack: seq<Obj>, world: nat, end: Step)
    requires WellJumps(p) && Done(Lift(p), il, dead)
    ensures var q := Generated(Elim(il), |il|);
            Ends(sem, Program(p), Cfg(0, stack, world), end) <==> Ends(sem, Program(q), Cfg(0, stack, world), end)
  {
    hide Done, Closed, Generated, Elim, Exec, Good;
    var c := Cfg(0, stack, world);
    var il2 := Elim(il);
    var code := Program(Generated(il2, |il|));
    DoneClosed(Lift(p), il, dead);
    StartBeside(Lift(p), il, dead, c);
    LastReturns(Lift(p), il, dead);
    if n :| Run(sem, Program(p), c, n) == end && !end.Next? {
      RunSameProgram(sem, p, c, n);
      var m := OldEnds(sem, Lift(p), il, dead, c, c, n);
      var k := CodeEnds(sem, il2, c, c, m);
      assert Run(sem, code, c, k) == end;
    }
    if m :| Run(sem, code, c, m) == end && !end.Next? {
      var n := CodeFrom(sem, il2, c, c, m);
      var k := NewEnds(sem, Lift(p), il, dead, c, c, n);
      RunSameProgram(sem, p, c, k);
      assert Run(sem, Program(p), c, k) == end;
    }
  }
}
