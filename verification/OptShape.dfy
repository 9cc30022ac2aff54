/** What the optimiser puts out, said of the program alone: which instructions stay, and
    where each jump goes. */
module OptShape {
  import opened OptSem
  import opened OptPasses
  import opened OptInvariant
  import opened OptSim
  import opened OptEmit

  // ---------------------------------------------------------------------------
  // Which instructions stay

  /** A jump on the condition of `o`, or a plain one. */
  predicate Onward(o: Opc, to: Opc) {
    to.JUMP? || (o.JUMP_TRUE_N? && to.JUMP_TRUE_N?) || (o.JUMP_FALSE_N? && to.JUMP_FALSE_N?)
  }

  predicate Against(o: Opc, to: Opc) {
    (o.JUMP_TRUE_N? && to.JUMP_FALSE_N?) || (o.JUMP_FALSE_N? && to.JUMP_TRUE_N?)
  }

  /** Going on from one jump to the next, jump `i` ends at `e`. */
  ghost predicate ChainEnds(il: seq<Ins>, i: nat, e: int)
    requires i < |il|
  {
    0 <= e < |il| && Leads(il, il[i].opc, il[i].jmpto, e) && !Onward(il[i].opc, il[e].opc)
  }

  ghost predicate Landed(il: seq<Ins>, t: nat) {
    exists k :: 0 <= k < |il| && il[k].jmpto == t
  }

  /** A conditional jump over a plain one. */
  ghost predicate Inverts(il: seq<Ins>, i: nat) {
    i + 2 < |il| && (il[i].opc.JUMP_TRUE? || il[i].opc.JUMP_FALSE?) && il[i + 1].opc.JUMP? && ChainEnds(il, i, i + 2)
  }

  /** A plain jump behind one that was inverted, behind another plain jump, or to the next
      instruction. */
  ghost predicate Needless(il: seq<Ins>, k: nat)
    requires k < |il|
  {
    il[k].opc.JUMP? && ((k > 0 && Inverts(il, k - 1)) || BehindJump(il, k) || ChainEnds(il, k, k + 1))
  }

  ghost predicate BehindJump(il: seq<Ins>, k: nat)
    requires k < |il|
  {
    k > 0 && il[k - 1].opc.JUMP? && !(k > 1 && Inverts(il, k - 2))
  }

  /** A value is pushed just to be popped again. */
  ghost predicate PushPop(il: seq<Ins>, i: nat) {
    i + 1 < |il| && il[i].opc.NEW? && il[i + 1].opc.POP? && !Landed(il, i) && !Landed(il, i + 1)
  }

  ghost predicate Stays(il: seq<Ins>, k: nat)
    requires k < |il|
  {
    if il[k].opc.NOP? then Landed(il, k)
    else if il[k].opc.JUMP? then !Needless(il, k)
    else !PushPop(il, k) && !(k > 0 && PushPop(il, k - 1))
  }

  function Flip(o: Opc): Opc {
    if o.JUMP_TRUE? then JUMP_FALSE else JUMP_TRUE
  }

  /** A jump goes where its chain ends, or right behind a jump on the opposite condition; an
      inverted one where the jump behind it went. */
  ghost predicate GetsTo(il: seq<Ins>, i: nat, t: int)
    requires i < |il|
  {
    if Inverts(il, i) then t == il[i + 1].jmpto
    else exists e :: ChainEnds(il, i, e) && t == if Against(il[i].opc, il[e].opc) then e + 1 else e
  }

  /** What stays, stays in order, instruction `a` of `q` having been instruction `at[a]`. */
  ghost predicate Shape(il: seq<Ins>, q: seq<Instr>, at: seq<nat>) {
    && |at| == |q|
    && (forall a, b | 0 <= a < b < |at| :: at[a] < at[b])
    && (forall k: nat | k < |il| :: k in at <==> Stays(il, k))
    && (forall a: nat | a < |q| :: Same(il, q, at, a))
  }

  /** An instruction keeps its line, its opcode unless it is a jump that was inverted, and
      its argument unless it is a jump. */
  ghost predicate Same(il: seq<Ins>, q: seq<Instr>, at: seq<nat>, a: nat)
    requires a < |q| == |at|
  {
    var i := at[a];
    && SameInstr(il, i, q[a])
    && (IsJump(q[a].opc) ==> 0 <= a + q[a].arg < |q| && GetsTo(il, i, at[a + q[a].arg]))
  }

  ghost predicate SameInstr(il: seq<Ins>, i: nat, j: Instr) {
    && i < |il| && j.line == il[i].line && j.opc == (if Inverts(il, i) then Flip(il[i].opc) else il[i].opc)
    && (!IsJump(j.opc) ==> j.arg == il[i].arg)
  }

  // ---------------------------------------------------------------------------
  // Chains have one end

  lemma {:induction false} LinksUnique(il: seq<Ins>, o: Opc, t: int, d: int, n: nat, e: int, m: nat)
    requires Links(il, o, t, d, n) && Links(il, o, t, e, m) && 0 <= d < |il| && 0 <= e < |il|
    requires !SameCond(o, il[d].opc) && !SameCond(o, il[e].opc)
    ensures d == e
    decreases n
  {
    if n > 0 && m > 0 {
      LinksUnique(il, o, il[t].jmpto, d, n - 1, e, m - 1);
    }
  }

  lemma EndUnique(il: seq<Ins>, i: nat, d: int, e: int)
    requires i < |il| && ChainEnds(il, i, d) && ChainEnds(il, i, e)
    ensures d == e
  {
    var o, t := il[i].opc, il[i].jmpto;
    var n: nat :| Links(il, o, t, d, n);
    var m: nat :| Links(il, o, t, e, m);
    LinksUnique(il, o, t, d, n, e, m);
  }

  // ---------------------------------------------------------------------------
  // References

  /** References are jumps to `k` from `n` on, each there once; others are struck out. */
  ghost predicate RefsFrom(il0: seq<Ins>, refs: seq<int>, k: nat, n: nat) {
    && (forall j | 0 <= j < |refs| && refs[j] != -1 :: n <= refs[j] < |il0| && il0[refs[j]].jmpto == k)
    && (forall i, j | 0 <= i < j < |refs| && refs[i] != -1 :: refs[i] != refs[j])
  }

  ghost predicate Listed(il: seq<Ins>) {
    forall k: nat | k < |il| :: RefsFrom(il, il[k].refs, k, 0) && -1 !in il[k].refs
  }

  lemma {:induction false} JumpsToRefs(p: seq<Instr>, t: nat, n: nat)
    requires WellJumps(p) && t < |Lift(p)| && n <= |p|
    ensures RefsFrom(Lift(p), JumpsTo(p, t, n), t, 0) && forall j | 0 <= j < |JumpsTo(p, t, n)| :: 0 <= JumpsTo(p, t, n)[j] < n
    decreases n
  {
    if n > 0 {
      JumpsToRefs(p, t, n - 1);
      assert Lift(p)[n - 1] == Lifted(p, n - 1);
      hide Lift, WellJumps;
    }
  }

  lemma LiftListed(p: seq<Instr>)
    requires WellJumps(p)
    ensures Listed(Lift(p))
  {
    forall k: nat | k < |Lift(p)| ensures RefsFrom(Lift(p), Lift(p)[k].refs, k, 0) && -1 !in Lift(p)[k].refs {
      JumpsToRefs(p, k, |p|);
    }
    hide RefsFrom;
  }

  lemma {:induction false} StruckAt(refs: seq<int>, i: int, j: nat)
    requires j < |refs| && forall a, b | 0 <= a < b < |refs| && refs[a] != -1 :: refs[a] != refs[b]
    requires i != -1
    ensures StruckOut(refs, i)[j] == if refs[j] == i then -1 else refs[j]
    decreases |refs|
  {
    if refs[0] != i && j > 0 {
      StruckAt(refs[1..], i, j - 1);
    }
  }

  lemma StruckFrom(il0: seq<Ins>, refs: seq<int>, k: nat, n: nat)
    requires RefsFrom(il0, refs, k, n)
    ensures RefsFrom(il0, StruckOut(refs, n), k, n + 1)
  {
    forall j: nat | j < |refs| ensures StruckOut(refs, n)[j] == if refs[j] == n then -1 else refs[j] {
      StruckAt(refs, n, j);
    }
    hide StruckOut;
  }

  lemma OthersFrom(il0: seq<Ins>, refs: seq<int>, k: nat, n: nat)
    requires RefsFrom(il0, refs, k, n) && (n < |il0| ==> il0[n].jmpto != k)
    ensures RefsFrom(il0, refs, k, n + 1)
  {
  }

  /** Nothing before `n` refers to a plain jump any more. */
  ghost predicate Struck(il0: seq<Ins>, il: seq<Ins>, n: nat)
    requires |il| == |il0|
  {
    forall k: nat | k < |il0| && il0[k].opc.JUMP? :: RefsFrom(il0, il[k].refs, k, n)
  }

  // ---------------------------------------------------------------------------
  // The jump pass

  ghost function NewOpc(il0: seq<Ins>, k: nat): Opc
    requires k < |il0|
  {
    if Inverts(il0, k) then Flip(il0[k].opc) else if Needless(il0, k) then NOP else il0[k].opc
  }

  ghost predicate Became(il0: seq<Ins>, il: seq<Ins>, k: nat)
    requires k < |il0| == |il|
  {
    il[k].opc == NewOpc(il0, k) && (IsJump(il[k].opc) ==> GetsTo(il0, k, il[k].jmpto))
  }

  /** What the pass knows of the instruction it comes to. */
  ghost predicate Facing(il0: seq<Ins>, il: seq<Ins>, n: nat, suc: bool)
    requires |il| == |il0|
  {
    && (n < |il| ==> il[n].opc == if n > 0 && Inverts(il0, n - 1) then NOP else il0[n].opc)
    && (n < |il| && il0[n].opc.JUMP? ==> suc == BehindJump(il0, n))
  }

  /** What became of the first `n` instructions, exactly. */
  ghost predicate Exact(il0: seq<Ins>, il: seq<Ins>, n: nat, suc: bool) {
    && |il| == |il0| && n <= |il|
    && (forall k: nat | k < n :: Became(il0, il, k))
    && Facing(il0, il, n, suc) && Struck(il0, il, n)
  }

  lemma ExactStart(il0: seq<Ins>)
    requires Listed(il0)
    ensures Exact(il0, il0, 0, false)
  {
    hide RefsFrom;
  }

  lemma ExactEnd(il0: seq<Ins>, il: seq<Ins>, suc: bool)
    requires Exact(il0, il, |il0|, suc)
    ensures Exact(il0, il, |il0|, false)
  {
    hide Became, Struck;
  }

  /** Whether the pass has just taken out the jump at `n` can be told from the program. */
  lemma DeadInverted(il0: seq<Ins>, il: seq<Ins>, dead: set<nat>, n: nat, suc: bool)
    requires Inv(il0, il, dead, n, suc) && Exact(il0, il, n, suc) && n < |il|
    ensures n in dead <==> n > 0 && Inverts(il0, n - 1)
  {
    hide Lands, RefsKept, Changed, ChainEnds, Struck, Became, BehindJump;
  }

  /** Threading, exactly: the chain is followed to its end, and the reference goes if there
      was anything to follow. */
  ghost predicate ThreadedTo(il0: seq<Ins>, il: seq<Ins>, r: seq<Ins>, i: nat, e: nat)
    requires i < |il| && |il| == |il0|
  {
    && SameOps(il, r) && InRange(r) && il[i].jmpto == il0[i].jmpto && 0 <= il0[i].jmpto < |il|
    && ChainEnds(il0, i, e) && r[i].jmpto == (if Against(il0[i].opc, il0[e].opc) then e + 1 else e)
    && (forall k | 0 <= k < |il| && k != i :: r[k].jmpto == il[k].jmpto)
    && (forall k | 0 <= k < |il| :: r[k].refs == if k == il0[i].jmpto && e != k then StruckOut(il[k].refs, i) else il[k].refs)
  }

  lemma OppositeSame(il0: seq<Ins>, il: seq<Ins>, dead: set<nat>, i: nat, suc: bool, e: nat)
    requires Lifts(il0) && Tidy(il0) && Inv(il0, il, dead, i, suc) && i < |il| && i !in dead && e < |il|
    ensures |il| == |il0| && (OppositeCond(il[i].opc, il[e].opc) <==> Against(il0[i].opc, il0[e].opc))
  {
    hide Inv, Tidy, Lifts;
    InvRange(il0, il, dead, i, suc);
    AheadOpc(il0, il, dead, i, suc, i);
    if OppositeCond(il[i].opc, il[e].opc) {
      OppositeOpc(il0, il, dead, i, suc, e);
    }
    if Against(il0[i].opc, il0[e].opc) {
      if e < i {
        SeenKeeps(il0, il, dead, i, suc, e);
      } else {
        AheadKeeps(il0, il, dead, i, suc, e);
      }
    }
  }

  lemma AheadKeeps(il0: seq<Ins>, il: seq<Ins>, dead: set<nat>, i: nat, suc: bool, e: nat)
    requires Inv(il0, il, dead, i, suc) && i <= e < |il| && i !in dead
    ensures |il| == |il0| && il[e].opc == il0[e].opc
  {
    hide Changed, RefsKept, Lands;
  }

  lemma ThreadedExact(il0: seq<Ins>, il: seq<Ins>, dead: set<nat>, i: nat, suc: bool) returns (e: nat)
    requires Lifts(il0) && Tidy(il0) && Inv(il0, il, dead, i, suc) && i < |il| && i !in dead && il0[i].jmpto != -1
    ensures |il| == |il0| && InRange(il) && ThreadedTo(il0, il, Threaded(il, i), i, e)
  {
    hide Inv, Tidy, Lifts, Links, ThreadEnd, Threaded, SameOps;
    InvRange(il0, il, dead, i, suc);
    AheadOpc(il0, il, dead, i, suc, i);
    var n, last := ThreadLands(il0, il, dead, i, suc, i, |il|);
    e := ThreadEnd(il, i, il[i].jmpto, |il|);
    JumpsHave(il0, e);
    OppositeSame(il0, il, dead, i, suc, e);
    if OppositeCond(il[i].opc, il[e].opc) {
      Behind(il0, last);
      SafeRange(il0, e + 1);
    }
    ThreadedShape(il, i);
  }

  lemma JumpsHave(il: seq<Ins>, i: nat)
    requires Lifts(il) && i < |il|
    ensures IsJump(il[i].opc) <==> il[i].jmpto != -1
  {
  }

  lemma StruckStep(il0: seq<Ins>, il: seq<Ins>, r: seq<Ins>, i: nat)
    requires |il| == |il0| == |r| && i < |il0| && Struck(il0, il, i)
    requires forall k: nat | k < |il| && il0[k].opc.JUMP? :: r[k].refs == if k == il0[i].jmpto then StruckOut(il[k].refs, i) else il[k].refs
    ensures Struck(il0, r, i + 1)
  {
    hide RefsFrom, StruckOut;
    forall k: nat | k < |il0| && il0[k].opc.JUMP? ensures RefsFrom(il0, r[k].refs, k, i + 1) {
      if k == il0[i].jmpto {
        StruckFrom(il0, il[k].refs, k, i);
      } else {
        OthersFrom(il0, il[k].refs, k, i);
      }
    }
  }

  /** What is behind does not change. */
  lemma BecameSame(il0: seq<Ins>, il: seq<Ins>, r: seq<Ins>, n: nat)
    requires |il| == |il0| == |r| && n <= |il| && (forall k: nat | k < n :: Became(il0, il, k))
    requires forall k: nat | k < n :: r[k].opc == il[k].opc && r[k].jmpto == il[k].jmpto
    ensures forall k: nat | k < n :: Became(il0, r, k)
  {
    hide NewOpc, GetsTo;
    forall k: nat | k < n ensures Became(il0, r, k) {
      assert Became(il0, il, k);
    }
  }

  /** An instruction further on is as it was. */
  lemma NextSame(il0: seq<Ins>, il: seq<Ins>, dead: set<nat>, i: nat, suc: bool)
    requires Inv(il0, il, dead, i, suc) && i + 1 < |il|
    ensures |il| == |il0| && il[i + 1].opc == il0[i + 1].opc && il[i + 1].jmpto == il0[i + 1].jmpto
  {
    hide Changed, RefsKept, Lands;
  }

  /** At a jump that an inversion has just taken out. */
  lemma DeadExact(il0: seq<Ins>, il: seq<Ins>, dead: set<nat>, i: nat, suc: bool)
    requires Lifts(il0) && Tidy(il0) && Listed(il0) && Inv(il0, il, dead, i, suc) && Exact(il0, il, i, suc) && i < |il| && i in dead
    ensures Exact(il0, il, i + 1, false)
  {
    hide Inv, Lifts, Tidy, Listed, ChainEnds, Became, Struck;
    DeadInverted(il0, il, dead, i, suc);
    if i + 1 < |il| {
      NextSame(il0, il, dead, i, suc);
    }
    OverNoJump(il0, i - 1);
    StruckDead(il0, il, i);
    DeadBecame(il0, il, i);
  }

  lemma StruckDead(il0: seq<Ins>, il: seq<Ins>, i: nat)
    requires |il| == |il0| && i < |il| && Struck(il0, il, i) && 0 <= il0[i].jmpto < |il| && !il0[il0[i].jmpto].opc.JUMP?
    ensures Struck(il0, il, i + 1)
  {
    hide RefsFrom;
    StruckStep(il0, il, il, i);
  }

  lemma DeadBecame(il0: seq<Ins>, il: seq<Ins>, i: nat)
    requires 0 < i < |il0| == |il| && Inverts(il0, i - 1) && il[i].opc.NOP?
    ensures Became(il0, il, i)
  {
    hide ChainEnds;
  }

  lemma OverNoJump(il: seq<Ins>, i: nat)
    requires Lifts(il) && Tidy(il) && Inverts(il, i)
    ensures 0 <= il[i + 1].jmpto < |il| && !il[il[i + 1].jmpto].opc.JUMP?
  {
    assert JumpsOver(il, i);
    hide Leads;
  }

  /** The jump pass inverts what is to be inverted. */
  lemma InvertsIff(il0: seq<Ins>, il: seq<Ins>, r: seq<Ins>, i: nat, e: nat)
    requires |il| == |il0| && i < |il| && ThreadedTo(il0, il, r, i, e) && il[i].opc == il0[i].opc
    requires i + 1 < |il| ==> il[i + 1].opc == il0[i + 1].opc
    ensures Inverts(il0, i) <==> (r[i].opc.JUMP_FALSE? || r[i].opc.JUMP_TRUE?) && i + 1 < |r| && r[i].jmpto == i + 2 && r[i + 1].opc.JUMP?
  {
    if Inverts(il0, i) {
      EndUnique(il0, i, e, i + 2);
    }
    hide ChainEnds;
  }

  /** When a jump was inverted. */
  lemma InvertedExact(il0: seq<Ins>, il: seq<Ins>, r: seq<Ins>, i: nat)
    requires |il| == |il0| == |r| && i < |il| && Inverts(il0, i) && Struck(il0, r, i + 1) && forall k: nat | k < i :: Became(il0, r, k)
    requires r[i].opc == Flip(il0[i].opc) && r[i].jmpto == il0[i + 1].jmpto && r[i + 1].opc.NOP?
    ensures Exact(il0, r, i + 1, false)
  {
    hide ChainEnds, Struck;
    assert Became(il0, r, i);
    hide Became;
  }

  /** When it was not. */
  lemma RemovedExact(il0: seq<Ins>, r: seq<Ins>, i: nat, suc: bool, e: nat)
    requires |r| == |il0| && i < |r| && !Inverts(il0, i) && !(i > 0 && Inverts(il0, i - 1)) && Struck(il0, r, i + 1)
    requires r[i].opc == il0[i].opc && (il0[i].opc.JUMP? ==> suc == BehindJump(il0, i))
    requires forall k: nat | k < i :: Became(il0, r, k)
    requires IsJump(il0[i].opc) ==> ChainEnds(il0, i, e) && r[i].jmpto == (if Against(il0[i].opc, il0[e].opc) then e + 1 else e)
    requires i + 1 < |il0| ==> r[i + 1].opc == il0[i + 1].opc
    ensures Exact(il0, Removed(r, i, suc), i + 1, SucAfter(r, i, suc))
  {
    var r', suc' := Removed(r, i, suc), SucAfter(r, i, suc);
    BecameSame(il0, r, r', i);
    if il0[i].opc.JUMP? && ChainEnds(il0, i, i + 1) {
      EndUnique(il0, i, e, i + 1);
    }
    assert Facing(il0, r', i + 1, suc') by { hide Became, Struck; }
    assert Struck(il0, r', i + 1) by { hide Became, Facing, RefsFrom; }
    assert Became(il0, r', i) by { hide Struck, Facing, ChainEnds; }
    hide Became, Struck, Facing;
  }

  /** Between threading and what comes after it. */
  ghost predicate Threading(il0: seq<Ins>, r: seq<Ins>, i: nat, e: nat) {
    && |r| == |il0| && i < |r| && r[i].opc == il0[i].opc && Struck(il0, r, i + 1) && (forall k: nat | k < i :: Became(il0, r, k))
    && (IsJump(il0[i].opc) ==> ChainEnds(il0, i, e) && r[i].jmpto == (if Against(il0[i].opc, il0[e].opc) then e + 1 else e))
    && (i + 1 < |il0| ==> r[i + 1].opc == il0[i + 1].opc && r[i + 1].jmpto == il0[i + 1].jmpto)
    && (Inverts(il0, i) <==> CanInvert(r, i))
  }

  predicate CanInvert(r: seq<Ins>, i: nat)
    requires i < |r|
  {
    (r[i].opc.JUMP_FALSE? || r[i].opc.JUMP_TRUE?) && i + 1 < |r| && r[i].jmpto == i + 2 && r[i + 1].opc.JUMP?
  }

  lemma ThreadedStep(il0: seq<Ins>, il: seq<Ins>, dead: set<nat>, i: nat, suc: bool) returns (e: nat)
    requires Lifts(il0) && Tidy(il0) && Inv(il0, il, dead, i, suc) && Exact(il0, il, i, suc) && i < |il| && i !in dead
    ensures InRange(il) && Threading(il0, Threaded(il, i), i, e)
  {
    hide Inv, Tidy, Lifts, Threaded, Inverts, ChainEnds, Struck, Became, Facing, InRange;
    InvRange(il0, il, dead, i, suc);
    AheadOpc(il0, il, dead, i, suc, i);
    JumpsHave(il0, i);
    var r := Threaded(il, i);
    if il0[i].jmpto == -1 {
      e := 0;
      ThreadedNot(il, i);
      StruckNone(il0, il, i);
      NotInverts(il0, i);
    } else {
      e := ThreadedExact(il0, il, dead, i, suc);
      ThreadedStruck(il0, il, r, i, e);
      BecameSame(il0, il, r, i);
    }
    if i + 1 < |il| {
      NextSame(il0, il, dead, i, suc);
    }
    if il0[i].jmpto != -1 {
      InvertsIff(il0, il, r, i, e);
    }
  }

  lemma ThreadedNot(il: seq<Ins>, i: nat)
    requires InRange(il) && i < |il| && il[i].jmpto == -1
    ensures Threaded(il, i) == il
  {
  }

  lemma NotInverts(il: seq<Ins>, i: nat)
    requires i < |il| && !IsJump(il[i].opc)
    ensures !Inverts(il, i) && !CanInvert(il, i)
  {
  }

  lemma StruckNone(il0: seq<Ins>, il: seq<Ins>, i: nat)
    requires |il| == |il0| && i < |il| && Struck(il0, il, i) && il0[i].jmpto == -1
    ensures Struck(il0, il, i + 1)
  {
    hide RefsFrom;
    StruckStep(il0, il, il, i);
  }

  lemma ThreadedStruck(il0: seq<Ins>, il: seq<Ins>, r: seq<Ins>, i: nat, e: nat)
    requires |il| == |il0| && i < |il| && ThreadedTo(il0, il, r, i, e) && Struck(il0, il, i)
    ensures Struck(il0, r, i + 1)
  {
    assert il0[il0[i].jmpto].opc.JUMP? ==> e != il0[i].jmpto;
    hide Struck, ChainEnds;
    StruckStep(il0, il, r, i);
  }

  /** One instruction further. */
  lemma IterateExact(il0: seq<Ins>, il: seq<Ins>, dead: set<nat>, i: nat, suc: bool)
    requires Lifts(il0) && Tidy(il0) && Listed(il0) && Inv(il0, il, dead, i, suc) && Exact(il0, il, i, suc) && i < |il|
    ensures InRange(il)
    ensures var (r, suc') := Iterate(il, i, suc); Exact(il0, r, i + 1, suc')
  {
    hide Inv, Tidy, Lifts, Listed, Threaded, Inverted, Iterate, Exact, InRange;
    InvRange(il0, il, dead, i, suc);
    if i in dead {
      DeadIdle(il0, il, dead, i, suc);
      DeadExact(il0, il, dead, i, suc);
    } else {
      var e := ThreadedStep(il0, il, dead, i, suc);
      DeadInverted(il0, il, dead, i, suc);
      IterateIs(il, i, suc);
      FacingJump(il0, il, i, suc);
      AfterThreading(il0, Threaded(il, i), i, e, suc);
    }
  }

  lemma FacingJump(il0: seq<Ins>, il: seq<Ins>, n: nat, suc: bool)
    requires Exact(il0, il, n, suc) && n < |il|
    ensures |il| == |il0| && (il0[n].opc.JUMP? ==> suc == BehindJump(il0, n))
  {
    hide Became, Struck, BehindJump;
  }

  lemma AfterThreading(il0: seq<Ins>, r: seq<Ins>, i: nat, e: nat, suc: bool)
    requires Threading(il0, r, i, e) && !(i > 0 && Inverts(il0, i - 1)) && (il0[i].opc.JUMP? ==> suc == BehindJump(il0, i))
    ensures var v := Inverted(r, i); Exact(il0, Removed(v, i, suc), i + 1, SucAfter(v, i, suc))
  {
    hide Inverts, ChainEnds, Struck, Became, Exact, Inverted, BehindJump;
    InvertedIff(r, i);
    if CanInvert(r, i) {
      var v := Inverted(r, i);
      InvertedIs(r, i);
      BecameSame(il0, r, v, i);
      SameStruck(il0, r, v, i + 1);
      InvertedExact(il0, r, v, i);
      NoJumpLeft(v, i, suc);
    } else {
      RemovedExact(il0, r, i, suc, e);
    }
  }

  lemma InvertedIff(r: seq<Ins>, i: nat)
    requires i < |r|
    ensures Inverted(r, i) != r <==> CanInvert(r, i)
  {
    if CanInvert(r, i) {
      assert Inverted(r, i)[i].opc != r[i].opc;
    }
  }

  lemma SameStruck(il0: seq<Ins>, il: seq<Ins>, r: seq<Ins>, n: nat)
    requires |il| == |il0| == |r| && Struck(il0, il, n) && forall k | 0 <= k < |il| :: r[k].refs == il[k].refs
    ensures Struck(il0, r, n)
  {
    hide RefsFrom;
  }

  // ---------------------------------------------------------------------------
  // What is put out

  lemma LandedIff(il: seq<Ins>, t: nat)
    requires Lifts(il) && Listed(il) && t < |il|
    ensures Landed(il, t) <==> il[t].refs != []
  {
    hide Tidy;
    if il[t].refs != [] {
      assert RefsFrom(il, il[t].refs, t, 0) && il[t].refs[0] != -1;
      assert il[il[t].refs[0]].jmpto == t;
    }
  }

  lemma PairIff(il: seq<Ins>, t: nat)
    requires Lifts(il) && Listed(il) && t < |il|
    ensures IsPair(il, t) <==> PushPop(il, t)
  {
    LandedIff(il, t);
    JumpsHave(il, t);
    if t + 1 < |il| {
      LandedIff(il, t + 1);
      JumpsHave(il, t + 1);
    }
    hide Lifts, Listed, Landed;
  }

  /** The jump pass leaves pairs alone. */
  lemma PairAfter(il0: seq<Ins>, il: seq<Ins>, dead: set<nat>, t: nat)
    requires Done(il0, il, dead) && t < |il0| && IsPair(il0, t)
    ensures |il| == |il0| && IsPair(il, t)
  {
    DoneFacts(il0, il, dead);
    assert Changed(il0, il, dead, t) && Changed(il0, il, dead, t + 1);
    assert |il[t].refs| == |il0[t].refs| && |il[t + 1].refs| == |il0[t + 1].refs|;
    hide Done, Lands, Tidy, RefsKept;
  }

  lemma PairSame(il0: seq<Ins>, il: seq<Ins>, dead: set<nat>, t: nat)
    requires Done(il0, il, dead) && Listed(il0) && t < |il0|
    ensures |il| == |il0| && (IsPair(il, t) <==> PushPop(il0, t))
  {
    hide Done, Lifts, Listed, IsPair, PushPop, Tidy, RefsKept;
    DoneFacts(il0, il, dead);
    PairIff(il0, t);
    if IsPair(il, t) {
      PairBefore(il0, il, dead, t);
    }
    if IsPair(il0, t) {
      PairAfter(il0, il, dead, t);
    }
  }

  ghost predicate Dropped(il: seq<Ins>, k: nat) {
    PushPop(il, k) || (k > 0 && PushPop(il, k - 1))
  }

  lemma ElimAt(il0: seq<Ins>, il: seq<Ins>, dead: set<nat>, k: nat)
    requires Done(il0, il, dead) && Listed(il0) && k < |il0|
    ensures |il| == |il0| && Elim(il)[k] == if Dropped(il0, k) then il[k].(opc := NOP) else il[k]
    ensures Dropped(il0, k) ==> il[k].refs == [] && (il0[k].opc.NEW? || il0[k].opc.POP?)
  {
    hide Done, Listed, Landed, Elim, IsPair, PushPop;
    PairSame(il0, il, dead, k);
    ElimIs(il, k);
    PushPopOpcs(il0, k);
    if k > 0 {
      PairSame(il0, il, dead, k - 1);
      PushPopOpcs(il0, k - 1);
    }
  }

  lemma PushPopOpcs(il: seq<Ins>, k: nat)
    requires k < |il|
    ensures PushPop(il, k) ==> k + 1 < |il| && il[k].opc.NEW? && il[k + 1].opc.POP?
  {
  }

  lemma ElimIs(il: seq<Ins>, k: nat)
    requires k < |il|
    ensures Elim(il)[k] == if IsPair(il, k) || (k > 0 && IsPair(il, k - 1)) then il[k].(opc := NOP) else il[k]
    ensures IsPair(il, k) || (k > 0 && IsPair(il, k - 1)) ==> il[k].refs == []
  {
  }

  lemma {:induction false} NoRealRefs(refs: seq<int>)
    requires forall j | 0 <= j < |refs| :: refs[j] == -1
    ensures RealRefs(refs) == 0
  {
    if refs != [] {
      NoRealRefs(refs[..|refs| - 1]);
    }
  }

  lemma NopRefs(il0: seq<Ins>, il: seq<Ins>, dead: set<nat>, k: nat)
    requires Done(il0, il, dead) && Listed(il0) && k < |il0| && il0[k].opc.NOP?
    ensures |il| == |il0| && (RealRefs(il[k].refs) > 0 <==> Landed(il0, k))
  {
    DoneFacts(il0, il, dead);
    LandedIff(il0, k);
    hide Done, Tidy, Lifts, Changed, Listed;
    if Landed(il0, k) {
      var j: nat :| j < |il0| && il0[j].jmpto == k;
      assert j in il[k].refs;
      RealRef(il[k].refs, j);
    }
  }

  lemma JumpRefs(il0: seq<Ins>, il: seq<Ins>, k: nat)
    requires Exact(il0, il, |il0|, false) && k < |il0| && il0[k].opc.JUMP?
    ensures |il| == |il0| && RealRefs(il[k].refs) == 0
  {
    assert Struck(il0, il, |il0|);
    hide Became, Facing;
    assert RefsFrom(il0, il[k].refs, k, |il0|);
    NoRealRefs(il[k].refs);
  }

  lemma BecameAt(il0: seq<Ins>, il: seq<Ins>, k: nat)
    requires Exact(il0, il, |il0|, false) && k < |il0|
    ensures |il| == |il0| && il[k].opc == NewOpc(il0, k) && (IsJump(il[k].opc) ==> GetsTo(il0, k, il[k].jmpto))
  {
    hide Struck, Facing, NewOpc, GetsTo;
    assert Became(il0, il, k);
  }

  lemma EmittedIff(il0: seq<Ins>, il: seq<Ins>, dead: set<nat>, k: nat)
    requires Done(il0, il, dead) && Listed(il0) && Exact(il0, il, |il0|, false) && k < |il0|
    ensures |il| == |il0| && (Emitted(Elim(il)[k]) <==> Stays(il0, k))
  {
    hide Done, Listed, Exact, Elim, PushPop, Landed, ChainEnds, BehindJump, RealRefs, GetsTo;
    ElimAt(il0, il, dead, k);
    BecameAt(il0, il, k);
    if il0[k].opc.NOP? {
      NopRefs(il0, il, dead, k);
    } else if il0[k].opc.JUMP? {
      JumpRefs(il0, il, k);
    } else if Dropped(il0, k) {
      NoRealRefs(il[k].refs);
    }
  }

  /** The instructions put out among the first `n`. */
  ghost function Places(il: seq<Ins>, n: nat): (r: seq<nat>)
    requires n <= |il|
    ensures |r| == AddrOf(il, n) && (forall a | 0 <= a < |r| :: r[a] < n)
  {
    if n == 0 then [] else Places(il, n - 1) + (if Emitted(il[n - 1]) then [n - 1] else [])
  }

  lemma {:induction false} PlacesIn(il: seq<Ins>, n: nat)
    requires n <= |il|
    ensures var r := Places(il, n);
            && (forall a, b | 0 <= a < b < |r| :: r[a] < r[b])
            && (forall k: nat | k < |il| :: k in r <==> k < n && Emitted(il[k]))
    decreases n
  {
    if n > 0 {
      PlacesIn(il, n - 1);
      hide Emitted, AddrOf;
    }
  }

  lemma {:induction false} PlacesAt(il: seq<Ins>, n: nat, a: nat)
    requires n <= |il| && a < AddrOf(il, n)
    ensures var i := Places(il, n)[a]; AddrOf(il, i) == a && Generated(il, n)[a] == Put(il, i) && Emitted(il[i])
    decreases n
  {
    if a < AddrOf(il, n - 1) {
      PlacesAt(il, n - 1, a);
    }
    hide Put;
  }

  lemma {:induction false} PlaceOf(il: seq<Ins>, n: nat, i: nat)
    requires i < n <= |il| && Emitted(il[i])
    ensures AddrOf(il, i) < AddrOf(il, n) && Places(il, n)[AddrOf(il, i)] == i
    decreases n
  {
    if i < n - 1 {
      PlaceOf(il, n - 1, i);
    }
  }

  lemma PutSame(il0: seq<Ins>, il: seq<Ins>, dead: set<nat>, i: nat)
    requires Done(il0, il, dead) && Listed(il0) && Exact(il0, il, |il0|, false) && i < |il0| && Stays(il0, i)
    ensures |il| == |il0| && SameInstr(il0, i, Put(Elim(il), i)) && Elim(il)[i].jmpto == il[i].jmpto
    ensures Elim(il)[i].opc == il[i].opc == Put(Elim(il), i).opc
  {
    DoneFacts(il0, il, dead);
    hide Done, Listed, Exact, Elim, Landed, AddrOf, ChainEnds, BehindJump, GetsTo, Changed, RefsKept, Lifts, Tidy;
    ElimAt(il0, il, dead, i);
    BecameAt(il0, il, i);
    hide PushPop;
  }

  lemma SamePut(il0: seq<Ins>, il: seq<Ins>, dead: set<nat>, a: nat)
    requires Done(il0, il, dead) && Listed(il0) && Exact(il0, il, |il0|, false) && |il| == |il0| && a < AddrOf(Elim(il), |il|)
    ensures Same(il0, Generated(Elim(il), |il|), Places(Elim(il), |il|), a)
  {
    var il2 := Elim(il);
    hide Done, Listed, Exact, Elim, Stays, SameInstr, GetsTo, Emitted, AddrOf, Places, Generated;
    PlacesAt(il2, |il|, a);
    var i := Places(il2, |il|)[a];
    EmittedIff(il0, il, dead, i);
    PutSame(il0, il, dead, i);
    BecameAt(il0, il, i);
    if IsJump(il2[i].opc) {
      DoneClosed(il0, il, dead);
      assert 0 <= il2[i].jmpto < |il2| && Emitted(il2[il2[i].jmpto]);
      PlaceOf(il2, |il|, il2[i].jmpto);
    }
  }

  lemma SameLength(il: seq<Ins>, n: nat)
    requires n <= |il|
    ensures |Places(il, n)| == |Generated(il, n)| == AddrOf(il, n)
  {
    hide Places, Generated;
  }

  /** When all passes are over. */
  lemma DoneShape(il0: seq<Ins>, il: seq<Ins>, dead: set<nat>)
    requires Done(il0, il, dead) && Listed(il0) && Exact(il0, il, |il0|, false)
    ensures |il| == |il0| && Shape(il0, Generated(Elim(il), |il|), Places(Elim(il), |il|))
  {
    hide Done, Listed, Exact, Elim, Stays, SameInstr, GetsTo, Emitted, AddrOf, Places, Generated;
    assert |il| == |il0| by { DoneLength(il0, il, dead); }
    var il2 := Elim(il);
    var q, at := Generated(il2, |il|), Places(il2, |il|);
    PlacesIn(il2, |il|);
    SameLength(il2, |il|);
    forall k: nat | k < |il0| ensures k in at <==> Stays(il0, k) {
      EmittedIff(il0, il, dead, k);
    }
    forall a: nat | a < |q| ensures Same(il0, q, at, a) {
      SamePut(il0, il, dead, a);
    }
    hide Same;
  }

  lemma DoneLength(il0: seq<Ins>, il: seq<Ins>, dead: set<nat>)
    requires Done(il0, il, dead)
    ensures |il| == |il0|
  {
    DoneFacts(il0, il, dead);
  }

  // ---------------------------------------------------------------------------
  // There is one such program

  lemma {:induction false} SameOrder(a: seq<nat>, b: seq<nat>)
    requires (forall i, j | 0 <= i < j < |a| :: a[i] < a[j]) && (forall i, j | 0 <= i < j < |b| :: b[i] < b[j])
    requires forall k :: k in a <==> k in b
    ensures a == b
    decreases |a|
  {
    Something(b);
    if a != [] {
      assert a[|a| - 1] in b;
      var a', b' := a[..|a| - 1], b[..|b| - 1];
      assert b[|b| - 1] in a;
      assert a[|a| - 1] == b[|b| - 1];
      forall k ensures k in a' <==> k in b' {
        FrontHas(a, k);
        FrontHas(b, k);
      }
      SameOrder(a', b');
      assert a == a' + [a[|a| - 1]] && b == b' + [b[|b| - 1]];
    }
  }

  lemma Something(a: seq<nat>)
    ensures a != [] ==> exists k :: k in a
  {
    if a != [] {
      assert a[0] in a;
    }
  }

  lemma FrontHas(a: seq<nat>, k: nat)
    requires a != [] && forall i, j | 0 <= i < j < |a| :: a[i] < a[j]
    ensures k in a[..|a| - 1] <==> k in a && k != a[|a| - 1]
  {
    if k in a && k != a[|a| - 1] {
      var i :| 0 <= i < |a| && a[i] == k;
      assert a[..|a| - 1][i] == k;
    }
  }

  lemma GetsToUnique(il: seq<Ins>, i: nat, t: int, u: int)
    requires i < |il| && GetsTo(il, i, t) && GetsTo(il, i, u)
    ensures t == u
  {
    hide Leads, Inverts;
    if !Inverts(il, i) {
      var d :| ChainEnds(il, i, d) && t == if Against(il[i].opc, il[d].opc) then d + 1 else d;
      var e :| ChainEnds(il, i, e) && u == if Against(il[i].opc, il[e].opc) then e + 1 else e;
      EndUnique(il, i, d, e);
    }
  }

  lemma SameThere(il: seq<Ins>, q: seq<Instr>, r: seq<Instr>, at: seq<nat>, a: nat)
    requires a < |q| == |r| == |at| && Same(il, q, at, a) && Same(il, r, at, a) && forall i, j | 0 <= i < j < |at| :: at[i] < at[j]
    ensures q[a] == r[a]
  {
    hide GetsTo, Inverts;
    if IsJump(q[a].opc) {
      GetsToUnique(il, at[a], at[a + q[a].arg], at[a + r[a].arg]);
    }
  }

  /** The program alone says what is put out for it. */
  lemma ShapeUnique(il: seq<Ins>, q: seq<Instr>, at: seq<nat>, r: seq<Instr>, bt: seq<nat>)
    requires Shape(il, q, at) && Shape(il, r, bt)
    ensures q == r && at == bt
  {
    hide Stays, SameInstr, GetsTo, IsJump;
    forall k ensures k in at <==> k in bt {
      InRangeOf(il, q, at, k);
      InRangeOf(il, r, bt, k);
    }
    SameOrder(at, bt);
    forall a: nat | a < |q| ensures q[a] == r[a] {
      SameThere(il, q, r, at, a);
    }
  }

  lemma InRangeOf(il: seq<Ins>, q: seq<Instr>, at: seq<nat>, k: nat)
    requires Shape(il, q, at)
    ensures k in at ==> k < |il|
  {
    hide Stays, GetsTo;
    if k in at {
      var a :| 0 <= a < |at| && at[a] == k;
      assert Same(il, q, at, a);
    }
  }

  /** No jump that is put out goes to a plain jump. */
  lemma LandsOnNoJump(p: seq<Instr>, q: seq<Instr>, at: seq<nat>, a: nat)
    requires WellJumps(p) && Tidy(Lift(p)) && Shape(Lift(p), q, at) && a < |q| && IsJump(q[a].opc)
    ensures 0 <= a + q[a].arg < |q| && !q[a + q[a].arg].opc.JUMP?
  {
    hide Stays, IsJump, Tidy, Lift, GetsTo;
    LiftLifts(p);
    assert Same(Lift(p), q, at, a);
    var b := a + q[a].arg;
    assert Same(Lift(p), q, at, b);
    TargetNoJump(Lift(p), at[a], at[b]);
  }

  lemma TargetNoJump(il: seq<Ins>, i: nat, t: nat)
    requires Lifts(il) && Tidy(il) && i < |il| && GetsTo(il, i, t) && t < |il|
    ensures !il[t].opc.JUMP?
  {
    hide Lifts, Tidy, Leads;
    if Inverts(il, i) {
      OverNoJump(il, i);
    } else {
      var e :| ChainEnds(il, i, e) && t == if Against(il[i].opc, il[e].opc) then e + 1 else e;
      if Against(il[i].opc, il[e].opc) {
        BehindNoJump(il, i, e);
      }
    }
  }

  lemma {:induction false} LinksLast(il: seq<Ins>, o: Opc, from: nat, e: nat, n: nat) returns (last: nat)
    requires InRange(il) && from < |il| && il[from].jmpto != -1 && Links(il, o, il[from].jmpto, e, n)
    requires Keeps(o) && (il[from].opc.JUMP? || il[from].opc == o)
    ensures last < |il| && il[last].jmpto == e && (il[last].opc.JUMP? || il[last].opc == o)
    decreases n
  {
    if n == 0 {
      last := from;
    } else {
      last := LinksLast(il, o, il[from].jmpto, e, n - 1);
    }
  }

  lemma BehindNoJump(il: seq<Ins>, i: nat, e: nat)
    requires Lifts(il) && Tidy(il) && i < |il| && ChainEnds(il, i, e) && Against(il[i].opc, il[e].opc) && e + 1 < |il|
    ensures !il[e + 1].opc.JUMP?
  {
    var n: nat :| Links(il, il[i].opc, il[i].jmpto, e, n);
    JumpsHave(il, i);
    var last := LinksLast(il, il[i].opc, i, e, n);
    JumpsHave(il, e);
    Behind(il, last);
    hide Tidy, Lifts, Links;
  }
}
