/** The passes of the optimiser, one instruction at a time. */
module OptPasses {
  import opened OptSem

  /** `to` is reached by `from` on the same condition: it jumps in any case, or both jump on
      the same value, left where it is. */
  predicate SameCond(from: Opc, to: Opc) {
    to.JUMP? || (from == to && (from.JUMP_TRUE_N? || from.JUMP_FALSE_N?))
  }

  predicate OppositeCond(a: Opc, b: Opc) {
    (a.JUMP_TRUE_N? && b.JUMP_FALSE_N?) || (a.JUMP_FALSE_N? && b.JUMP_TRUE_N?)
  }

  predicate InRange(il: seq<Ins>) {
    forall i | 0 <= i < |il| && il[i].jmpto != -1 :: 0 <= il[i].jmpto < |il|
  }

  /** Where the jump `cur` goes on to from `tmp`, through at most `fuel` other jumps. */
  function ThreadEnd(il: seq<Ins>, cur: nat, tmp: nat, fuel: nat): (t: nat)
    requires InRange(il) && cur < |il| && tmp < |il|
    ensures t < |il|
    decreases fuel
  {
    if fuel == 0 || il[tmp].jmpto == -1 || !SameCond(il[cur].opc, il[tmp].opc) || tmp == cur then tmp
    else ThreadEnd(il, cur, il[tmp].jmpto, fuel - 1)
  }

  /** The first entry for `i` is struck out. */
  function StruckOut(refs: seq<int>, i: int): (r: seq<int>)
    ensures |r| == |refs|
  {
    if refs == [] then [] else if refs[0] == i then [-1] + refs[1..] else [refs[0]] + StruckOut(refs[1..], i)
  }

  /** Jumps to jumps are made to go straight to where they end up. */
  function Threaded(il: seq<Ins>, i: nat): (r: seq<Ins>)
    requires InRange(il) && i < |il|
    ensures |r| == |il|
  {
    if il[i].jmpto == -1 then il
    else
      var to := il[i].jmpto;
      var end := ThreadEnd(il, i, to, |il|);
      var il1 := if end != to then il[to := il[to].(refs := StruckOut(il[to].refs, i))] else il;
      var il2 := if end != to then il1[i := il1[i].(jmpto := end)] else il1;
      if OppositeCond(il[i].opc, il[end].opc) then il2[i := il2[i].(jmpto := end + 1)] else il2
  }

  /** A conditional jump over a jump becomes the opposite one, and the jump goes. */
  function Inverted(il: seq<Ins>, i: nat): (r: seq<Ins>)
    requires i < |il|
    ensures |r| == |il|
  {
    if (il[i].opc.JUMP_FALSE? || il[i].opc.JUMP_TRUE?) && i + 1 < |il| && il[i].jmpto == i + 2 && il[i + 1].opc.JUMP? then
      il[i := il[i].(jmpto := il[i + 1].jmpto, opc := if il[i].opc.JUMP_FALSE? then JUMP_TRUE else JUMP_FALSE)]
        [i + 1 := il[i + 1].(opc := NOP)]
    else il
  }

  /** A jump behind a jump, or to the next instruction, goes. */
  function Removed(il: seq<Ins>, i: nat, suc: bool): seq<Ins>
    requires i < |il|
  {
    if il[i].opc.JUMP? && (suc || il[i].jmpto == i + 1) then il[i := il[i].(opc := NOP)] else il
  }

  function SucAfter(il: seq<Ins>, i: nat, suc: bool): bool
    requires i < |il|
  {
    if il[i].opc.JUMP? then suc || il[i].jmpto != i + 1 else false
  }

  function Iterate(il: seq<Ins>, i: nat, suc: bool): (r: (seq<Ins>, bool))
    requires InRange(il) && i < |il|
    ensures |r.0| == |il|
  {
    var il1 := Inverted(Threaded(il, i), i);
    (Removed(il1, i, suc), SucAfter(il1, i, suc))
  }

  /** No value is pushed just to be popped again. */
  predicate IsPair(il: seq<Ins>, i: nat)
    requires i < |il|
  {
    il[i].opc.NEW? && i + 1 < |il| && il[i + 1].opc.POP?
    && il[i].refs == [] && il[i].jmpto == -1 && il[i + 1].refs == [] && il[i + 1].jmpto == -1
  }

  // ---------------------------------------------------------------------------
  // Generating code

  function RealRefs(refs: seq<int>): nat {
    if refs == [] then 0 else RealRefs(refs[..|refs| - 1]) + (if refs[|refs| - 1] != -1 then 1 else 0)
  }

  /** A `nop` is put out only if something refers to it. */
  predicate Emitted(i: Ins) {
    !(i.opc.NOP? && RealRefs(i.refs) == 0)
  }

  /** How many of the first `n` instructions are put out. */
  function AddrOf(il: seq<Ins>, n: nat): nat
    requires n <= |il|
  {
    if n == 0 then 0 else AddrOf(il, n - 1) + (if Emitted(il[n - 1]) then 1 else 0)
  }

  /** Instruction `i` as it is put out. */
  function Put(il: seq<Ins>, i: nat): Instr
    requires i < |il|
  {
    var j := il[i];
    Instr(j.opc, if IsJump(j.opc) && 0 <= j.jmpto < |il| then AddrOf(il, j.jmpto) - AddrOf(il, i) else j.arg, j.line)
  }

  function Generated(il: seq<Ins>, n: nat): (r: seq<Instr>)
    requires n <= |il|
    ensures |r| == AddrOf(il, n)
  {
    if n == 0 then [] else Generated(il, n - 1) + (if Emitted(il[n - 1]) then [Put(il, n - 1)] else [])
  }
}
