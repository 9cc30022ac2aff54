/** What the jump pass has done after any number of instructions. */
module OptInvariant {
  import opened OptSem
  import opened OptPasses

  // ---------------------------------------------------------------------------
  // Programs the optimiser gets right

  predicate Through(o: Opc) {
    o.JUMP? || o.JUMP_TRUE_N? || o.JUMP_FALSE_N?
  }

  /** What lifting makes of a program: it ends with a `return`, jumps stay inside, and every
      jump is among the references of its target. */
  ghost predicate Lifts(il: seq<Ins>) {
    && |il| > 0 && il[|il| - 1].opc.RETURN? && InRange(il)
    && (forall i | 0 <= i < |il| :: IsJump(il[i].opc) <==> il[i].jmpto != -1)
    && (forall i | 0 <= i < |il| && il[i].jmpto != -1 :: i in il[il[i].jmpto].refs)
  }

  predicate Keeps(o: Opc) {
    o.JUMP_TRUE_N? || o.JUMP_FALSE_N?
  }

  /** No pass takes away what is at `t`: it is no plain jump, and something jumps to it or it
      stands behind a jump that keeps its condition and is not about to be dropped. */
  ghost predicate Safe(il: seq<Ins>, t: int) {
    && 0 <= t < |il| && !il[t].opc.JUMP?
    && ((exists k :: 0 <= k < |il| && il[k].jmpto == t)
        || (t > 0 && !il[t].opc.NOP? && !IsPair(il, t) && Keeps(il[t - 1].opc)))
  }

  /** Does a chain of jumps on one condition go on from a jump `from` to a jump `to`, or might
      it, were `from` in the middle of one? */
  predicate Follows(from: Opc, to: Opc) {
    to.JUMP? || (Keeps(to) && (from.JUMP? || from == to))
  }

  /** And might it end there, at a jump on the opposite condition? */
  predicate Opposes(from: Opc, to: Opc) {
    Keeps(to) && (from.JUMP? || OppositeCond(from, to))
  }

  /** Taking `n` jumps on the same condition leads from `t` to `end`. */
  ghost predicate Links(il: seq<Ins>, o: Opc, t: int, end: int, n: nat)
    decreases n
  {
    && 0 <= t < |il|
    && if n == 0 then t == end else SameCond(o, il[t].opc) && Links(il, o, il[t].jmpto, end, n - 1)
  }

  ghost predicate Leads(il: seq<Ins>, o: Opc, t: int, end: int) {
    exists n: nat :: Links(il, o, t, end, n)
  }

  /** A conditional jump leads over a jump right behind it. */
  ghost predicate JumpsOver(il: seq<Ins>, i: nat) {
    && i + 2 < |il| && (il[i].opc.JUMP_TRUE? || il[i].opc.JUMP_FALSE?) && il[i + 1].opc.JUMP? && il[i + 1].jmpto != -1
    && Leads(il, il[i].opc, il[i].jmpto, i + 2)
  }

  /** Chains of jumps lead forward; a jump that a conditional jump leads over does not land on
      a jump;
      and what stands behind a jump on the opposite condition that is landed on is safe. */
  ghost predicate Tidy(il: seq<Ins>) {
    && InRange(il)
    && (forall i | 0 <= i < |il| && il[i].jmpto != -1 && Follows(il[i].opc, il[il[i].jmpto].opc) :: i < il[i].jmpto)
    && (forall i | 0 <= i < |il| && JumpsOver(il, i) :: !il[il[i + 1].jmpto].opc.JUMP?)
    && (forall i | 0 <= i < |il| && il[i].jmpto != -1 && Opposes(il[i].opc, il[il[i].jmpto].opc) :: Safe(il, il[i].jmpto + 1))
  }

  // ---------------------------------------------------------------------------
  // Chains of jumps

  /** A jump of opcode `o` to `t`, when taken, gets to `end`, and may rely on it. */
  ghost predicate Lands(il: seq<Ins>, o: Opc, t: int, end: int) {
    Safe(il, end) && exists n: nat :: Links(il, o, t, end, n) || LinksBefore(il, o, t, end, n)
  }

  /** Or to one behind a jump on the opposite condition. */
  ghost predicate LinksBefore(il: seq<Ins>, o: Opc, t: int, end: int, n: nat) {
    0 < end <= |il| && Links(il, o, t, end - 1, n) && OppositeCond(o, il[end - 1].opc)
  }

  // ---------------------------------------------------------------------------
  // What became of an instruction

  ghost predicate Kept(il0: seq<Ins>, il: seq<Ins>, k: nat)
    requires k < |il0| == |il|
  {
    && il[k].opc == il0[k].opc
    && if il0[k].jmpto == -1 then il[k].jmpto == -1 else Lands(il0, il0[k].opc, il0[k].jmpto, il[k].jmpto)
  }

  ghost predicate Flipped(il0: seq<Ins>, il: seq<Ins>, k: nat)
    requires k < |il0| == |il|
  {
    && ((il0[k].opc.JUMP_FALSE? && il[k].opc.JUMP_TRUE?) || (il0[k].opc.JUMP_TRUE? && il[k].opc.JUMP_FALSE?))
    && k + 2 < |il| && Lands(il0, il0[k].opc, il0[k].jmpto, k + 2)
    && il0[k + 1].opc.JUMP? && il[k + 1].opc.NOP? && il[k].jmpto == il0[k + 1].jmpto
  }

  ghost predicate Skipped(il0: seq<Ins>, il: seq<Ins>, k: nat)
    requires k < |il0| == |il|
  {
    il0[k].opc.JUMP? && il[k].opc.NOP? && Lands(il0, JUMP, il0[k].jmpto, k + 1)
  }

  /** A jump that went and that nothing gets to. */
  ghost predicate Gone(il0: seq<Ins>, il: seq<Ins>, dead: set<nat>, k: nat)
    requires k < |il0| == |il|
  {
    && k > 0 && il0[k].opc.JUMP? && il[k].opc.NOP?
    && (Flipped(il0, il, k - 1) || (il0[k - 1].opc.JUMP? && (Kept(il0, il, k - 1) || k - 1 in dead)))
  }

  ghost predicate Changed(il0: seq<Ins>, il: seq<Ins>, dead: set<nat>, k: nat)
    requires k < |il0| == |il|
  {
    if k in dead then Gone(il0, il, dead, k) else Kept(il0, il, k) || Flipped(il0, il, k) || Skipped(il0, il, k)
  }

  /** Instructions from `n` on are as they were, unless one just went. */
  ghost predicate Ahead(il0: seq<Ins>, il: seq<Ins>, dead: set<nat>, n: nat)
    requires |il0| == |il|
  {
    && (forall k | n <= k < |il| :: il[k].jmpto == il0[k].jmpto && (if k in dead then k == n > 0 && Flipped(il0, il, k - 1) else il[k].opc == il0[k].opc))
    && (forall k | 0 <= k < |il| :: il[k].arg == il0[k].arg && il[k].line == il0[k].line)
  }

  /** References are struck out only where jumps go on. */
  ghost predicate RefsKept(il0: seq<Ins>, il: seq<Ins>)
    requires |il0| == |il|
  {
    && (forall k | 0 <= k < |il| :: |il[k].refs| == |il0[k].refs|)
    && (forall k | 0 <= k < |il0| && 0 <= il0[k].jmpto < |il0| && !Through(il0[il0[k].jmpto].opc) :: k in il[il0[k].jmpto].refs)
  }

  ghost predicate Inv(il0: seq<Ins>, il: seq<Ins>, dead: set<nat>, n: nat, suc: bool) {
    && |il| == |il0| && n <= |il| && InRange(il)
    && Ahead(il0, il, dead, n) && RefsKept(il0, il)
    && (forall k | 0 <= k < n :: Changed(il0, il, dead, k))
    && (suc ==> n > 0 && il0[n - 1].opc.JUMP? && (Kept(il0, il, n - 1) || n - 1 in dead))
  }

  lemma InvStart(il0: seq<Ins>)
    requires Lifts(il0)
    ensures Inv(il0, il0, {}, 0, false)
  {
  }

  /** Is the chain going on at `t`? */
  ghost predicate GoesOn(il: seq<Ins>, o: Opc, t: nat)
    requires t < |il|
  {
    il[t].jmpto != -1 && SameCond(o, il[t].opc)
  }

  lemma Forward(il0: seq<Ins>, from: nat)
    requires Tidy(il0) && from < |il0| && il0[from].jmpto != -1
    requires Follows(il0[from].opc, il0[il0[from].jmpto].opc)
    ensures from < il0[from].jmpto
  {
  }

  /** A jump that keeps its condition stays one. */
  lemma SeenKeeps(il0: seq<Ins>, il: seq<Ins>, dead: set<nat>, n: nat, suc: bool, k: nat)
    requires Inv(il0, il, dead, n, suc) && k < n && Keeps(il0[k].opc)
    ensures il[k].opc == il0[k].opc
  {
    hide Lands, Ahead, RefsKept;
    assert Changed(il0, il, dead, k);
  }

  /** What has been seen never becomes a jump that goes on. */
  lemma SeenOpc(il0: seq<Ins>, il: seq<Ins>, dead: set<nat>, n: nat, suc: bool, k: nat)
    requires Inv(il0, il, dead, n, suc) && k < n && !Through(il0[k].opc)
    ensures !Through(il[k].opc)
  {
    hide Lands, Ahead, RefsKept;
    assert Changed(il0, il, dead, k);
  }

  lemma AheadOpc(il0: seq<Ins>, il: seq<Ins>, dead: set<nat>, n: nat, suc: bool, k: nat)
    requires Inv(il0, il, dead, n, suc) && n <= k < |il| && (k == n ==> k !in dead)
    ensures il[k].opc == il0[k].opc && il[k].jmpto == il0[k].jmpto && k !in dead
  {
    hide Changed, RefsKept, Gone, Kept, Flipped;
  }

  /** While the pass is at `i`, the chain of `i` is what it was at the start. */
  lemma ChainSame(il0: seq<Ins>, il: seq<Ins>, dead: set<nat>, i: nat, suc: bool, from: nat)
    requires Lifts(il0) && Tidy(il0) && Inv(il0, il, dead, i, suc) && i < |il| && i !in dead
    requires i <= from < |il| && il0[from].jmpto != -1 && (from == i || SameCond(il0[i].opc, il0[from].opc))
    ensures var t := il0[from].jmpto;
            && 0 <= t < |il| && (GoesOn(il, il0[i].opc, t) <==> GoesOn(il0, il0[i].opc, t))
            && (GoesOn(il0, il0[i].opc, t) ==> from < t && il[t].jmpto == il0[t].jmpto && il[t].opc == il0[t].opc)
  {
    var t := il0[from].jmpto;
    assert 0 <= t < |il0| && |il| == |il0| && (Follows(il0[from].opc, il0[t].opc) ==> from < t) by {
      hide Inv;
      if Follows(il0[from].opc, il0[t].opc) {
        Forward(il0, from);
      }
    }
    if t >= i {
      AheadOpc(il0, il, dead, i, suc, t);
    } else if Keeps(il0[t].opc) {
      SeenKeeps(il0, il, dead, i, suc, t);
    } else {
      SeenOpc(il0, il, dead, i, suc, t);
    }
    hide Tidy, Lifts, Inv;
  }

  lemma InvRange(il0: seq<Ins>, il: seq<Ins>, dead: set<nat>, n: nat, suc: bool)
    requires Inv(il0, il, dead, n, suc)
    ensures |il| == |il0| && InRange(il) && n <= |il|
  {
    hide Ahead, RefsKept, Changed, Kept;
  }

  /** Following the chain gets to its end: some jump lands there, and it does not go on. */
  lemma {:induction false} ThreadLands(il0: seq<Ins>, il: seq<Ins>, dead: set<nat>, i: nat, suc: bool, from: nat, fuel: nat)
    returns (n: nat, last: nat)
    requires Lifts(il0) && Tidy(il0) && Inv(il0, il, dead, i, suc) && i < |il| && i !in dead
    requires i <= from < |il0| && il0[from].jmpto != -1 && fuel + from >= |il| && (from == i || SameCond(il0[i].opc, il0[from].opc))
    ensures |il| == |il0| && 0 <= il0[from].jmpto < |il| && InRange(il)
    ensures var end := ThreadEnd(il, i, il0[from].jmpto, fuel);
            && Links(il0, il0[i].opc, il0[from].jmpto, end, n) && !GoesOn(il0, il0[i].opc, end)
            && i <= last < |il0| && il0[last].jmpto == end && (last == i || SameCond(il0[i].opc, il0[last].opc))
            && (end != il0[from].jmpto ==> Through(il0[il0[from].jmpto].opc))
    decreases fuel
  {
    hide Inv, Tidy, Lifts;
    InvRange(il0, il, dead, i, suc);
    ChainSame(il0, il, dead, i, suc, from);
    AheadOpc(il0, il, dead, i, suc, i);
    var t := il0[from].jmpto;
    n, last := 0, from;
    if GoesOn(il0, il0[i].opc, t) {
      var m;
      m, last := ThreadLands(il0, il, dead, i, suc, t, fuel - 1);
      n := m + 1;
    }
  }

  /** The same instructions, targets and references aside. */
  ghost predicate SameOps(a: seq<Ins>, b: seq<Ins>) {
    |a| == |b| && forall k | 0 <= k < |a| :: b[k].opc == a[k].opc && b[k].arg == a[k].arg && b[k].line == a[k].line
  }

  /** What an opposite jump is landed on by, stands behind something that is put out. */
  lemma Behind(il0: seq<Ins>, last: nat)
    requires Tidy(il0) && last < |il0| && il0[last].jmpto != -1 && Opposes(il0[last].opc, il0[il0[last].jmpto].opc)
    ensures Safe(il0, il0[last].jmpto + 1)
  {
  }

  lemma OppositeOpc(il0: seq<Ins>, il: seq<Ins>, dead: set<nat>, i: nat, suc: bool, end: nat)
    requires Lifts(il0) && Tidy(il0) && Inv(il0, il, dead, i, suc) && i < |il| && i !in dead && end < |il|
    requires OppositeCond(il[i].opc, il[end].opc)
    ensures il0[end].opc == il[end].opc
  {
    hide Lands, RefsKept;
    if end < i {
      assert Changed(il0, il, dead, end);
    }
  }

  /** What threading changes, whatever it finds. */
  lemma ThreadedShape(il: seq<Ins>, i: nat)
    requires InRange(il) && i < |il| && il[i].jmpto != -1
    requires var end := ThreadEnd(il, i, il[i].jmpto, |il|); OppositeCond(il[i].opc, il[end].opc) ==> end + 1 < |il|
    ensures var r, to := Threaded(il, i), il[i].jmpto;
            var end := ThreadEnd(il, i, to, |il|);
            && SameOps(il, r) && InRange(r) && r[i].jmpto == (if OppositeCond(il[i].opc, il[end].opc) then end + 1 else end)
            && (forall k | 0 <= k < |il| && k != i :: r[k].jmpto == il[k].jmpto)
            && (forall k | 0 <= k < |il| :: r[k].refs == if k == to && end != to then StruckOut(il[k].refs, i) else il[k].refs)
  {
    hide ThreadEnd;
  }

  lemma EndSafe(il0: seq<Ins>, o: Opc, last: nat)
    requires Lifts(il0) && last < |il0| && il0[last].jmpto != -1 && !GoesOn(il0, o, il0[last].jmpto)
    ensures Safe(il0, il0[last].jmpto)
  {
  }

  /** Threading one jump: it lands where its chain lands, and the rest stays. */
  lemma ThreadedJump(il0: seq<Ins>, il: seq<Ins>, dead: set<nat>, i: nat, suc: bool)
    requires Lifts(il0) && Tidy(il0) && Inv(il0, il, dead, i, suc) && i < |il| && i !in dead && il0[i].jmpto != -1
    ensures InRange(il) && |il| == |il0|
    ensures var r := Threaded(il, i);
            && SameOps(il, r) && InRange(r) && Lands(il0, il0[i].opc, il0[i].jmpto, r[i].jmpto)
            && (forall k | 0 <= k < |il| && k != i :: r[k].jmpto == il[k].jmpto)
            && (forall k | 0 <= k < |il| :: r[k].refs == il[k].refs
                  || (k == il0[i].jmpto && Through(il0[k].opc) && r[k].refs == StruckOut(il[k].refs, i)))
  {
    hide Inv, Tidy, Lifts, Links, ThreadEnd, Threaded, SameOps;
    InvRange(il0, il, dead, i, suc);
    AheadOpc(il0, il, dead, i, suc, i);
    var n, last := ThreadLands(il0, il, dead, i, suc, i, |il|);
    var end := ThreadEnd(il, i, il[i].jmpto, |il|);
    EndSafe(il0, il0[i].opc, last);
    if OppositeCond(il[i].opc, il[end].opc) {
      OppositeOpc(il0, il, dead, i, suc, end);
      Behind(il0, last);
      assert LinksBefore(il0, il0[i].opc, il0[i].jmpto, end + 1, n);
    }
    ThreadedShape(il, i);
  }

  lemma NeverJump(il0: seq<Ins>, il: seq<Ins>, dead: set<nat>, n: nat, suc: bool, k: nat)
    requires Inv(il0, il, dead, n, suc) && k < |il| && il[k].opc.JUMP?
    ensures il0[k].opc.JUMP?
  {
    hide Lands, RefsKept;
    if k < n {
      assert Changed(il0, il, dead, k);
    }
  }

  /** What was inverted led over a jump. */
  lemma FlippedOver(il0: seq<Ins>, il: seq<Ins>, k: nat)
    requires Lifts(il0) && |il0| == |il| && k < |il| && Flipped(il0, il, k)
    ensures JumpsOver(il0, k)
  {
    assert !OppositeCond(il0[k].opc, il0[k + 1].opc);
    hide Safe, Links;
  }

  /** At a jump that an inversion has just removed nothing happens. */
  lemma DeadIdle(il0: seq<Ins>, il: seq<Ins>, dead: set<nat>, i: nat, suc: bool)
    requires Lifts(il0) && Tidy(il0) && Inv(il0, il, dead, i, suc) && i < |il| && i in dead
    ensures InRange(il) && Iterate(il, i, suc) == (il, false)
  {
    InvRange(il0, il, dead, i, suc);
    assert i > 0 && Flipped(il0, il, i - 1) && il[i].jmpto == il0[i].jmpto by { hide Lands, RefsKept, Changed; }
    var t := il[i].jmpto;
    FlippedOver(il0, il, i - 1);
    assert t != -1 ==> !il0[t].opc.JUMP? by { hide Inv, Lands, Flipped, Links; }
    if t != -1 && il[t].opc.JUMP? {
      NeverJump(il0, il, dead, i, suc, t);
    }
    hide Inv, Tidy, Lifts, Lands;
  }

  lemma DeadInv(il0: seq<Ins>, il: seq<Ins>, dead: set<nat>, i: nat, suc: bool)
    requires Inv(il0, il, dead, i, suc) && i < |il| && i in dead
    ensures Inv(il0, il, dead, i + 1, false)
  {
    hide Lands, RefsKept;
  }

  /** What is behind does not change with what is ahead. */
  lemma ChangedStable(il0: seq<Ins>, il: seq<Ins>, r: seq<Ins>, dead: set<nat>, dead': set<nat>, i: nat)
    requires |il0| == |il| == |r| && i < |il| && il[i].opc == il0[i].opc
    requires forall k | 0 <= k < i :: r[k].opc == il[k].opc && r[k].jmpto == il[k].jmpto && (k in dead' <==> k in dead)
    requires forall k | 0 <= k < i :: Changed(il0, il, dead, k)
    ensures forall k | 0 <= k < i :: Changed(il0, r, dead', k)
  {
    hide Lands;
    forall k | 0 <= k < i ensures Changed(il0, r, dead', k) {
      assert Changed(il0, il, dead, k);
    }
  }

  /** Between threading and what comes after it. */
  ghost predicate Mid(il0: seq<Ins>, il: seq<Ins>, dead: set<nat>, i: nat, suc: bool) {
    && |il| == |il0| && i < |il| && InRange(il) && i !in dead
    && (forall k | i < k < |il| :: il[k].jmpto == il0[k].jmpto && il[k].opc == il0[k].opc && k !in dead)
    && (forall k | 0 <= k < |il| :: il[k].arg == il0[k].arg && il[k].line == il0[k].line)
    && RefsKept(il0, il) && Kept(il0, il, i)
    && (forall k | 0 <= k < i :: Changed(il0, il, dead, k))
    && (suc ==> i > 0 && il0[i - 1].opc.JUMP? && (Kept(il0, il, i - 1) || i - 1 in dead))
  }

  lemma ThreadedMid(il0: seq<Ins>, il: seq<Ins>, dead: set<nat>, i: nat, suc: bool)
    requires Lifts(il0) && Tidy(il0) && Inv(il0, il, dead, i, suc) && i < |il| && i !in dead
    ensures InRange(il) && Mid(il0, Threaded(il, i), dead, i, suc)
  {
    InvRange(il0, il, dead, i, suc);
    AheadOpc(il0, il, dead, i, suc, i);
    var r := Threaded(il, i);
    if il0[i].jmpto != -1 {
      ThreadedJump(il0, il, dead, i, suc);
      ThreadedRefs(il0, il, r, i);
    }
    MidFrom(il0, il, r, dead, i, suc);
  }

  lemma ThreadedRefs(il0: seq<Ins>, il: seq<Ins>, r: seq<Ins>, i: nat)
    requires |il| == |il0| == |r| && i < |il0| && RefsKept(il0, il)
    requires forall k | 0 <= k < |il| :: r[k].refs == il[k].refs
               || (k == il0[i].jmpto && Through(il0[k].opc) && r[k].refs == StruckOut(il[k].refs, i))
    ensures RefsKept(il0, r)
  {
  }

  lemma MidFrom(il0: seq<Ins>, il: seq<Ins>, r: seq<Ins>, dead: set<nat>, i: nat, suc: bool)
    requires Inv(il0, il, dead, i, suc) && i < |il| && i !in dead && SameOps(il, r) && InRange(r) && RefsKept(il0, r)
    requires forall k | 0 <= k < |il| && k != i :: r[k].jmpto == il[k].jmpto
    requires if il0[i].jmpto == -1 then r[i].jmpto == -1 else Lands(il0, il0[i].opc, il0[i].jmpto, r[i].jmpto)
    ensures Mid(il0, r, dead, i, suc)
  {
    AheadOpc(il0, il, dead, i, suc, i);
    assert forall k | 0 <= k < i :: Changed(il0, il, dead, k) by { hide Lands, RefsKept, Ahead; }
    ChangedStable(il0, il, r, dead, dead, i);
    assert suc ==> i > 0 && il0[i - 1].opc.JUMP? && (Kept(il0, il, i - 1) || i - 1 in dead) by { hide Ahead, RefsKept, Changed, Lands; }
    hide Lands, RefsKept, Changed;
  }

  lemma InvertedIs(il: seq<Ins>, i: nat)
    requires i < |il| && Inverted(il, i) != il
    ensures var r := Inverted(il, i);
            && i + 2 <= |il| && |r| == |il| && il[i].jmpto == i + 2 && il[i + 1].opc.JUMP? && r[i + 1] == il[i + 1].(opc := NOP)
            && ((il[i].opc.JUMP_FALSE? && r[i].opc.JUMP_TRUE?) || (il[i].opc.JUMP_TRUE? && r[i].opc.JUMP_FALSE?))
            && r[i] == il[i].(jmpto := il[i + 1].jmpto, opc := r[i].opc) && forall k | 0 <= k < |il| && k != i && k != i + 1 :: r[k] == il[k]
  {
  }

  /** A conditional jump over a jump. */
  lemma FlippedInv(il0: seq<Ins>, il: seq<Ins>, dead: set<nat>, i: nat, suc: bool)
    requires Mid(il0, il, dead, i, suc) && Inverted(il, i) != il
    ensures Inv(il0, Inverted(il, i), dead + {i + 1}, i + 1, false)
    ensures !Inverted(il, i)[i].opc.JUMP?
  {
    hide Lands, Inverted;
    var r, dead' := Inverted(il, i), dead + {i + 1};
    InvertedIs(il, i);
    assert il[i + 1].opc == il0[i + 1].opc && il[i + 1].jmpto == il0[i + 1].jmpto && Kept(il0, il, i) by { hide RefsKept, Changed; }
    FlippedKept(il0, il, r, i);
    ChangedStable(il0, il, r, dead, dead', i);
    hide Changed, Kept, Flipped;
    assert Changed(il0, r, dead', i) by { FlippedChanged(il0, r, dead', i); }
    RefsSame(il0, il, r);
  }

  lemma FlippedKept(il0: seq<Ins>, il: seq<Ins>, r: seq<Ins>, i: nat)
    requires |il0| == |il| == |r| && i + 2 <= |il| && Kept(il0, il, i) && (il[i].opc.JUMP_FALSE? || il[i].opc.JUMP_TRUE?)
    requires il[i].jmpto == i + 2 && il0[i + 1].opc.JUMP? && il[i + 1].jmpto == il0[i + 1].jmpto && r[i + 1].opc.NOP? && r[i].jmpto == il[i + 1].jmpto
    requires (il[i].opc.JUMP_FALSE? && r[i].opc.JUMP_TRUE?) || (il[i].opc.JUMP_TRUE? && r[i].opc.JUMP_FALSE?)
    ensures Flipped(il0, r, i)
  {
    assert Lands(il0, il0[i].opc, il0[i].jmpto, i + 2);
  }

  lemma FlippedChanged(il0: seq<Ins>, il: seq<Ins>, dead: set<nat>, i: nat)
    requires |il0| == |il| && i < |il| && Flipped(il0, il, i) && i !in dead
    ensures Changed(il0, il, dead, i)
  {
    hide Lands;
  }

  lemma RefsSame(il0: seq<Ins>, il: seq<Ins>, r: seq<Ins>)
    requires |il0| == |il| == |r| && RefsKept(il0, il) && forall k | 0 <= k < |il| :: r[k].refs == il[k].refs
    ensures RefsKept(il0, r)
  {
  }

  /** Nothing to invert: a jump may go, anything else stays. */
  lemma RemovedInv(il0: seq<Ins>, il: seq<Ins>, dead: set<nat>, i: nat, suc: bool)
    requires Mid(il0, il, dead, i, suc)
    ensures var dead' := if il[i].opc.JUMP? && suc then dead + {i} else dead;
            Inv(il0, Removed(il, i, suc), dead', i + 1, SucAfter(il, i, suc))
  {
    var r, dead' := Removed(il, i, suc), if il[i].opc.JUMP? && suc then dead + {i} else dead;
    assert Kept(il0, il, i);
    ChangedStable(il0, il, r, dead, dead', i);
    assert Changed(il0, r, dead', i) by { hide RefsKept, Changed; RemovedChanged(il0, il, dead, i, suc); }
    hide Lands, Changed, Gone, Skipped, Flipped;
  }

  lemma RemovedChanged(il0: seq<Ins>, il: seq<Ins>, dead: set<nat>, i: nat, suc: bool)
    requires Mid(il0, il, dead, i, suc)
    ensures var dead' := if il[i].opc.JUMP? && suc then dead + {i} else dead;
            |il| == |il0| && i < |il| && Changed(il0, Removed(il, i, suc), dead', i)
  {
    hide RefsKept, Lands;
  }

  lemma IterateIs(il: seq<Ins>, i: nat, suc: bool)
    requires InRange(il) && i < |il|
    ensures var il1 := Threaded(il, i);
            Iterate(il, i, suc) == (Removed(Inverted(il1, i), i, suc), SucAfter(Inverted(il1, i), i, suc))
  {
    hide Threaded, Inverted, Removed, SucAfter;
  }

  lemma NoJumpLeft(il: seq<Ins>, i: nat, suc: bool)
    requires i < |il| && !il[i].opc.JUMP?
    ensures Removed(il, i, suc) == il && SucAfter(il, i, suc) == false
  {
  }

  /** One instruction further. */
  lemma IterateInv(il0: seq<Ins>, il: seq<Ins>, dead: set<nat>, i: nat, suc: bool) returns (dead': set<nat>)
    requires Lifts(il0) && Tidy(il0) && Inv(il0, il, dead, i, suc) && i < |il|
    ensures InRange(il)
    ensures var (r, suc') := Iterate(il, i, suc); Inv(il0, r, dead', i + 1, suc')
  {
    hide Inv, Mid, Threaded, Inverted, Tidy, Lifts, Removed, SucAfter, Iterate, InRange;
    InvRange(il0, il, dead, i, suc);
    if i in dead {
      DeadIdle(il0, il, dead, i, suc);
      DeadInv(il0, il, dead, i, suc);
      return dead;
    }
    ThreadedMid(il0, il, dead, i, suc);
    var il1 := Threaded(il, i);
    IterateIs(il, i, suc);
    if Inverted(il1, i) != il1 {
      FlippedInv(il0, il1, dead, i, suc);
      NoJumpLeft(Inverted(il1, i), i, suc);
      dead' := dead + {i + 1};
    } else {
      RemovedInv(il0, il1, dead, i, suc);
      dead' := if il1[i].opc.JUMP? && suc then dead + {i} else dead;
    }
  }
}
