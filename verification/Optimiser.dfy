/** The optimiser: lifting a program, rewriting it in place, and putting it out again. */
module Optimiser {
  import opened OptSem
  import opened OptPasses
  import opened OptInvariant
  import opened OptSim
  import opened OptEmit
  import opened OptShape

  // ---------------------------------------------------------------------------
  // Lifting

  /** What lifting knows of instruction `k` before it has looked at jumps from `n` on. */
  ghost function LiftedTo(p: seq<Instr>, k: nat, n: nat): Ins
    requires k <= |p| && n <= |p|
  {
    var i := if k < |p| then Lifted(p, k) else Final(p);
    i.(jmpto := if k < n then i.jmpto else -1, refs := JumpsTo(p, k, n))
  }

  method Convert(p: seq<Instr>) returns (instrs: array<Ins>)
    requires WellJumps(p)
    ensures fresh(instrs) && instrs[..] == Lift(p)
  {
    var list: seq<Ins> := [];
    var outRef := false;
    var pos := 0;
    while pos < |p|
      invariant 0 <= pos <= |p| && |list| == pos && forall k | 0 <= k < pos :: list[k] == LiftedTo(p, k, 0)
      invariant outRef <==> exists k :: 0 <= k < pos && IsJump(p[k].opc) && k + p[k].arg >= |p|
    {
      list := list + [Ins(p[pos].opc, p[pos].arg, p[pos].line, -1, -1, [])];
      if IsJump(p[pos].opc) && p[pos].arg + pos >= |p| {
        outRef := true;
      }
      pos := pos + 1;
    }
    if outRef || |p| == 0 || p[|p| - 1].opc != RETURN {
      list := list + [Ins(RETURN, 0, -1, -1, -1, [])];
    }
    assert |list| == |Lift(p)|;
    instrs := new Ins[|list|](i requires 0 <= i < |list| => list[i]);
    Link(p, instrs);
  }

  /** Every jump finds its target and is noted there. */
  method Link(p: seq<Instr>, instrs: array<Ins>)
    requires WellJumps(p) && instrs.Length == |Lift(p)| && forall k | 0 <= k < instrs.Length :: instrs[k] == LiftedTo(p, k, 0)
    modifies instrs
    ensures instrs[..] == Lift(p)
  {
    var addr := 0;
    while addr < |p|
      invariant 0 <= addr <= |p| && forall k | 0 <= k < instrs.Length :: instrs[k] == LiftedTo(p, k, addr)
    {
      if IsJump(instrs[addr].opc) {
        var to := addr + instrs[addr].arg;
        assert 0 <= to < instrs.Length;
        instrs[addr] := instrs[addr].(jmpto := to);
        instrs[to] := instrs[to].(refs := instrs[to].refs + [addr]);
      }
      addr := addr + 1;
    }
    assert forall k | 0 <= k < instrs.Length :: instrs[k] == Lift(p)[k];
  }

  // ---------------------------------------------------------------------------
  // Jumps

  /** Strikes out the first entry for `i`. */
  method FindAndRemove(list: seq<int>, i: int) returns (r: seq<int>)
    ensures r == StruckOut(list, i)
  {
    var k := 0;
    while k < |list| && list[k] != i
      invariant 0 <= k <= |list| && StruckOut(list, i) == list[..k] + StruckOut(list[k..], i)
    {
      assert list[k..][1..] == list[k + 1..];
      k := k + 1;
    }
    if k == |list| {
      return list;
    }
    assert list[k..][1..] == list[k + 1..];
    return list[k := -1];
  }

  /** Makes the jump `cur` go straight to where its chain of jumps ends. */
  method ThreadJump(a: array<Ins>, cur: nat, ghost il0: seq<Ins>, ghost dead: set<nat>, ghost suc: bool)
    requires cur < a.Length && Lifts(il0) && Tidy(il0) && Inv(il0, a[..], dead, cur, suc)
    modifies a
    ensures InRange(old(a[..])) && a[..] == Threaded(old(a[..]), cur)
    ensures forall k | 0 <= k < a.Length :: a[k].addr == old(a[k].addr)
  {
    hide Inv, Tidy, Lifts, ThreadEnd, StruckOut, Threaded;
    ghost var il := a[..];
    InvRange(il0, il, dead, cur, suc);
    if a[cur].jmpto == -1 {
      ThreadedNot(il, cur);
      return;
    }
    var to := a[cur].jmpto;
    var tmp := ChainEnd(a, cur, il0, dead, suc);
    if tmp != to {
      var refs := FindAndRemove(a[to].refs, cur);
      a[to] := a[to].(refs := refs);
      a[cur] := a[cur].(jmpto := tmp);
    }
    if OppositeCond(a[cur].opc, a[tmp].opc) {
      a[cur] := a[cur].(jmpto := tmp + 1);
    }
    ThreadedIs(il, cur, a[..]);
  }

  lemma ThreadedIs(il: seq<Ins>, i: nat, r: seq<Ins>)
    requires InRange(il) && i < |il| == |r| && il[i].jmpto != -1
    requires var to := il[i].jmpto;
             var end := ThreadEnd(il, i, to, |il|);
             var il1 := if end != to then il[to := il[to].(refs := StruckOut(il[to].refs, i))] else il;
             var il2 := if end != to then il1[i := il1[i].(jmpto := end)] else il1;
             r == if OppositeCond(il[i].opc, il[end].opc) then il2[i := il2[i].(jmpto := end + 1)] else il2
    ensures r == Threaded(il, i)
  {
  }

  /** Follows the chain of jumps on the same condition. */
  method ChainEnd(a: array<Ins>, cur: nat, ghost il0: seq<Ins>, ghost dead: set<nat>, ghost suc: bool) returns (tmp: nat)
    requires cur < a.Length && Lifts(il0) && Tidy(il0) && Inv(il0, a[..], dead, cur, suc) && a[cur].jmpto != -1
    ensures InRange(a[..]) && 0 <= a[cur].jmpto < a.Length && tmp < a.Length && tmp == ThreadEnd(a[..], cur, a[cur].jmpto, a.Length)
  {
    hide Inv, Tidy, Lifts;
    ghost var il := a[..];
    InvRange(il0, il, dead, cur, suc);
    tmp := a[cur].jmpto;
    ghost var from, fuel: nat := cur, a.Length;
    if cur in dead {
      DeadEnd(il0, il, dead, cur, suc);
    } else {
      AheadOpc(il0, il, dead, cur, suc, cur);
    }
    while a[tmp].jmpto != -1 && SameCond(a[cur].opc, a[tmp].opc)
      invariant tmp < a.Length && cur <= from < a.Length && fuel + from >= a.Length && |il0| == |il|
      invariant from == cur || SameCond(il0[cur].opc, il0[from].opc)
      invariant cur in dead ==> !GoesOn(il, il[cur].opc, tmp)
      invariant cur !in dead ==> il0[from].jmpto == tmp && |il0| == |il|
      invariant ThreadEnd(il, cur, a[cur].jmpto, a.Length) == ThreadEnd(il, cur, tmp, fuel)
      decreases a.Length - from
    {
      ChainSame(il0, il, dead, cur, suc, from);
      if tmp == cur {
        break;
      }
      from, fuel := tmp, fuel - 1;
      tmp := a[tmp].jmpto;
    }
  }

  /** The chain of a jump that has just gone does not go on. */
  lemma DeadEnd(il0: seq<Ins>, il: seq<Ins>, dead: set<nat>, i: nat, suc: bool)
    requires Lifts(il0) && Tidy(il0) && Inv(il0, il, dead, i, suc) && i < |il| && i in dead && 0 <= il[i].jmpto < |il|
    ensures !GoesOn(il, il[i].opc, il[i].jmpto)
  {
    var t := il[i].jmpto;
    assert i > 0 && Flipped(il0, il, i - 1) && il[i].jmpto == il0[i].jmpto by { hide Lands, RefsKept, Changed; }
    FlippedOver(il0, il, i - 1);
    if il[t].opc.JUMP? {
      NeverJump(il0, il, dead, i, suc, t);
    }
    hide Inv, Lands;
  }

  /** One instruction of the jump pass. */
  method ReduceAt(a: array<Ins>, cur: nat, suc: bool, ghost il0: seq<Ins>, ghost dead: set<nat>) returns (suc': bool)
    requires cur < a.Length && Lifts(il0) && Tidy(il0) && Inv(il0, a[..], dead, cur, suc)
    modifies a
    ensures InRange(old(a[..])) && (a[..], suc') == Iterate(old(a[..]), cur, suc)
    ensures forall k | 0 <= k < a.Length :: a[k].addr == old(a[k].addr)
  {
    hide Inv, Tidy, Lifts, Threaded;
    ghost var il := a[..];
    ThreadJump(a, cur, il0, dead, suc);
    ghost var il1 := a[..];
    if a[cur].opc == JUMP_FALSE && a[cur].jmpto == cur + 2 && cur + 1 < a.Length && a[cur + 1].opc == JUMP {
      a[cur] := a[cur].(jmpto := a[cur + 1].jmpto, opc := JUMP_TRUE);
      a[cur + 1] := a[cur + 1].(opc := NOP);
    } else if a[cur].opc == JUMP_TRUE && a[cur].jmpto == cur + 2 && cur + 1 < a.Length && a[cur + 1].opc == JUMP {
      a[cur] := a[cur].(jmpto := a[cur + 1].jmpto, opc := JUMP_FALSE);
      a[cur + 1] := a[cur + 1].(opc := NOP);
    }
    assert a[..] == Inverted(il1, cur);
    suc' := suc;
    if a[cur].opc == JUMP {
      if suc' || a[cur].jmpto == cur + 1 {
        a[cur] := a[cur].(opc := NOP);
      } else {
        suc' := true;
      }
    } else {
      suc' := false;
    }
  }

  method JumpReduce(a: array<Ins>) returns (ghost dead: set<nat>)
    requires Lifts(a[..]) && Tidy(a[..]) && Listed(a[..])
    modifies a
    ensures Done(old(a[..]), a[..], dead) && Exact(old(a[..]), a[..], a.Length, false)
    ensures forall k | 0 <= k < a.Length :: a[k].addr == old(a[k].addr)
  {
    hide Inv, Tidy, Lifts, Listed, Iterate, Exact;
    ghost var il0 := a[..];
    InvStart(il0);
    ExactStart(il0);
    dead := {};
    var suc := false;
    var cur := 0;
    while cur < a.Length
      invariant 0 <= cur <= a.Length && Inv(il0, a[..], dead, cur, suc) && Exact(il0, a[..], cur, suc)
      invariant forall k | 0 <= k < a.Length :: a[k].addr == old(a[k].addr)
    {
      ghost var dead' := IterateInv(il0, a[..], dead, cur, suc);
      IterateExact(il0, a[..], dead, cur, suc);
      suc := ReduceAt(a, cur, suc, il0, dead);
      dead := dead';
      cur := cur + 1;
    }
    ExactEnd(il0, a[..], suc);
  }

  // ---------------------------------------------------------------------------
  // Comparisons, pushes and pops

  predicate IsRawJump(o: Opc) {
    o.JUMP_FALSE? || o.JUMP_TRUE?
  }

  /** Nothing refers to the instruction and it refers to nothing. */
  predicate IsIso(i: Ins) {
    |i.refs| == 0 && i.jmpto == -1
  }

  /** Meant to compare in a register.  It never does: the jump behind a comparison always
      has a target. */
  method CmpOpt(a: array<Ins>)
    requires forall k | 0 <= k < a.Length && IsJump(a[k].opc) :: a[k].jmpto != -1
  {
    var cur := 0;
    while cur + 1 < a.Length
      invariant 0 <= cur <= a.Length
    {
      if a[cur].opc.CMP? && IsRawJump(a[cur + 1].opc) && IsIso(a[cur]) && IsIso(a[cur + 1]) {
        assert false;
      }
      cur := cur + 1;
    }
  }

  method ElimDupPop(a: array<Ins>)
    modifies a
    ensures a[..] == Elim(old(a[..]))
  {
    ghost var il := a[..];
    var cur := 0;
    while cur < a.Length
      invariant 0 <= cur <= a.Length
      invariant forall k | 0 <= k < cur :: a[k] == Elim(il)[k]
      invariant forall k | cur <= k < a.Length :: a[k] == if k == cur > 0 && IsPair(il, k - 1) then Elim(il)[k] else il[k]
    {
      if cur + 1 < a.Length && a[cur].opc.NEW? && a[cur + 1].opc == POP && IsIso(a[cur]) && IsIso(a[cur + 1]) {
        a[cur] := a[cur].(opc := NOP);
        a[cur + 1] := a[cur + 1].(opc := NOP);
      }
      cur := cur + 1;
    }
  }

  // ---------------------------------------------------------------------------
  // Putting out

  method GetRealRefCount(refs: seq<int>) returns (n: nat)
    ensures n == RealRefs(refs)
  {
    n := 0;
    var i := 0;
    while i < |refs|
      invariant 0 <= i <= |refs| && n == RealRefs(refs[..i])
    {
      assert refs[..i + 1][..i] == refs[..i];
      if refs[i] != -1 {
        n := n + 1;
      }
      i := i + 1;
    }
    assert refs[..i] == refs;
  }

  /** Instruction `i` as it is put out when the jumps before `m` have been aimed. */
  ghost function Aimed(il: seq<Ins>, i: nat, m: nat): Instr
    requires i < |il|
  {
    if i < m then Put(il, i) else Instr(il[i].opc, il[i].arg, il[i].line)
  }

  /** The first `n` instructions, as far as they are put out, in that state. */
  ghost function Draft(il: seq<Ins>, n: nat, m: nat): (r: seq<Instr>)
    requires n <= |il|
    ensures |r| == AddrOf(il, n)
  {
    if n == 0 then [] else Draft(il, n - 1, m) + (if Emitted(il[n - 1]) then [Aimed(il, n - 1, m)] else [])
  }

  lemma {:induction false} DraftDone(il: seq<Ins>, n: nat, m: nat)
    requires n <= |il| && n <= m
    ensures Draft(il, n, m) == Generated(il, n)
  {
    if n > 0 {
      DraftDone(il, n - 1, m);
    }
  }

  /** Aiming one more jump. */
  lemma {:induction false} DraftMore(il: seq<Ins>, n: nat, m: nat)
    requires n <= |il| && m < |il|
    ensures m < n && Emitted(il[m]) ==> AddrOf(il, m) < AddrOf(il, n) && Draft(il, n, m)[AddrOf(il, m)] == Aimed(il, m, m)
    ensures Draft(il, n, m + 1) == if m < n && Emitted(il[m]) then Draft(il, n, m)[AddrOf(il, m) := Put(il, m)] else Draft(il, n, m)
    decreases n
  {
    if n > 0 {
      DraftMore(il, n - 1, m);
    }
  }

  /** Where instruction `k` is put, if it is. */
  ghost function Place(il: seq<Ins>, k: nat): int
    requires k < |il|
  {
    if Emitted(il[k]) then AddrOf(il, k) else -1
  }

  lemma DraftNext(il: seq<Ins>, n: nat)
    requires n < |il|
    ensures Draft(il, n + 1, 0) == Draft(il, n, 0) + (if Emitted(il[n]) then [Instr(il[n].opc, il[n].arg, il[n].line)] else [])
    ensures Place(il, n) == if Emitted(il[n]) then |Draft(il, n, 0)| else -1
  {
  }

  /** Puts out every instruction but the `nop`s nothing refers to, and notes where. */
  method PutOut(a: array<Ins>) returns (dest: seq<Instr>)
    requires forall k | 0 <= k < a.Length :: a[k].addr == -1
    modifies a
    ensures dest == Draft(old(a[..]), a.Length, 0)
    ensures forall k | 0 <= k < a.Length :: a[k] == old(a[k]).(addr := Place(old(a[..]), k))
  {
    hide Draft, Place, RealRefs;
    ghost var il := a[..];
    dest := [];
    assert dest == Draft(il, 0, 0) by { DraftNone(il); }
    var cur := 0;
    while cur < a.Length
      invariant 0 <= cur <= a.Length && dest == Draft(il, cur, 0)
      invariant forall k | 0 <= k < cur :: a[k] == il[k].(addr := Place(il, k))
      invariant forall k | cur <= k < a.Length :: a[k] == il[k]
    {
      DraftNext(il, cur);
      var count := GetRealRefCount(a[cur].refs);
      if !(a[cur].opc == NOP && count == 0) {
        a[cur] := a[cur].(addr := |dest|);
        dest := dest + [Instr(a[cur].opc, a[cur].arg, a[cur].line)];
      }
      cur := cur + 1;
    }
  }

  lemma DraftNone(il: seq<Ins>)
    ensures Draft(il, 0, 0) == []
  {
  }

  /** Aiming one more jump, if it is one that is put out. */
  lemma AimNext(il: seq<Ins>, m: nat)
    requires Closed(il) && TargetsEmitted(il) && m < |il|
    ensures var d, d' := Draft(il, |il|, m), Draft(il, |il|, m + 1);
            if IsJump(il[m].opc) && Place(il, m) != -1 then
              && 0 <= il[m].jmpto < |il| && Place(il, il[m].jmpto) != -1 && 0 <= Place(il, m) < |d|
              && d' == d[Place(il, m) := d[Place(il, m)].(arg := Place(il, il[m].jmpto) - Place(il, m))]
            else d' == d
  {
    hide Draft, AddrOf, Emitted, Closed, TargetsEmitted, Aimed, Put;
    DraftMore(il, |il|, m);
    if Emitted(il[m]) {
      PutIs(il, m);
      if IsJump(il[m].opc) {
        AimedTarget(il, m);
      } else {
        Unaimed(Draft(il, |il|, m), AddrOf(il, m));
      }
    }
  }

  lemma PutIs(il: seq<Ins>, m: nat)
    requires m < |il|
    ensures IsJump(il[m].opc) && 0 <= il[m].jmpto < |il| ==> Put(il, m) == Aimed(il, m, m).(arg := AddrOf(il, il[m].jmpto) - AddrOf(il, m))
    ensures !IsJump(il[m].opc) ==> Put(il, m) == Aimed(il, m, m)
  {
    hide AddrOf;
  }

  lemma AimedTarget(il: seq<Ins>, m: nat)
    requires Closed(il) && TargetsEmitted(il) && m < |il| && IsJump(il[m].opc) && Emitted(il[m])
    ensures 0 <= il[m].jmpto < |il| && Emitted(il[il[m].jmpto])
  {
    hide Emitted;
  }

  lemma Unaimed(d: seq<Instr>, i: nat)
    requires i < |d|
    ensures d[i := d[i]] == d
  {
  }

  /** Aims the jumps at where their targets have been put. */
  method Aim(a: array<Ins>, dest0: seq<Instr>, ghost il: seq<Ins>) returns (dest: seq<Instr>)
    requires Closed(il) && TargetsEmitted(il) && dest0 == Draft(il, |il|, 0) && a.Length == |il|
    requires forall k | 0 <= k < a.Length :: a[k] == il[k].(addr := Place(il, k))
    ensures dest == Generated(il, |il|)
  {
    hide Draft, Place, Closed, TargetsEmitted, Generated;
    dest := dest0;
    var cur := 0;
    while cur < a.Length
      invariant 0 <= cur <= a.Length && dest == Draft(il, |il|, cur)
    {
      AimNext(il, cur);
      if IsJump(a[cur].opc) && a[cur].addr != -1 {
        var tmp := a[a[cur].jmpto];
        assert tmp.addr != -1;
        dest := dest[a[cur].addr := dest[a[cur].addr].(arg := tmp.addr - a[cur].addr)];
      }
      cur := cur + 1;
    }
    DraftDone(il, |il|, |il|);
  }

  /** Puts the program out. */
  method GenerateExec(a: array<Ins>) returns (dest: seq<Instr>)
    requires Closed(a[..]) && TargetsEmitted(a[..]) && forall k | 0 <= k < a.Length :: a[k].addr == -1
    modifies a
    ensures dest == Generated(old(a[..]), a.Length)
  {
    ghost var il := a[..];
    dest := PutOut(a);
    dest := Aim(a, dest, il);
  }

  // ---------------------------------------------------------------------------
  // All of it

  /** The jumps that are left when the jump pass is over have targets. */
  lemma DoneJumps(il0: seq<Ins>, il: seq<Ins>, dead: set<nat>)
    requires Done(il0, il, dead)
    ensures forall k | 0 <= k < |il| && IsJump(il[k].opc) :: il[k].jmpto != -1
  {
    hide Done, Safe, Lifts, Tidy;
    DoneFacts(il0, il, dead);
    forall k | 0 <= k < |il| && IsJump(il[k].opc) ensures il[k].jmpto != -1 {
      JumpSafe(il0, il, dead, k);
      SafeRange(il0, il[k].jmpto);
    }
  }

  lemma ElimAddr(il: seq<Ins>)
    ensures forall k | 0 <= k < |il| :: Elim(il)[k].addr == il[k].addr
  {
  }

  /** Optimises a program.  The result runs to the same end, and one runs for ever if the
      other does; what is in it is what is not needless, each jump going to where its chain
      ends. */
  method OptExec(p: seq<Instr>) returns (q: seq<Instr>)
    requires WellJumps(p) && Tidy(Lift(p))
    ensures forall sem, stack, world, end ::
      Ends(sem, Program(p), Cfg(0, stack, world), end) <==> Ends(sem, Program(q), Cfg(0, stack, world), end)
    ensures exists at :: Shape(Lift(p), q, at)
  {
    hide Lifts, Tidy, Done, Closed, TargetsEmitted, Ends, Elim, Generated, Listed, Exact, Shape, Places;
    LiftLifts(p);
    LiftListed(p);
    var a := Convert(p);
    ghost var dead := JumpReduce(a);
    ghost var il := a[..];
    DoneJumps(Lift(p), il, dead);
    assert forall k | 0 <= k < a.Length :: a[k].addr == Lift(p)[k].addr;
    CmpOpt(a);
    ElimDupPop(a);
    ElimAddr(il);
    DoneClosed(Lift(p), il, dead);
    q := GenerateExec(a);
    DoneShape(Lift(p), il, dead);
    forall sem, stack, world, end
      ensures Ends(sem, Program(p), Cfg(0, stack, world), end) <==> Ends(sem, Program(q), Cfg(0, stack, world), end)
    {
      SameRuns(p, il, dead, sem, stack, world, end);
    }
  }
}
