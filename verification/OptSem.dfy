/** Instructions, what running them means, and the intermediate form the optimiser works
    on: absolute jump targets and lists of the jumps that refer to an instruction. */
module OptSem {

  type Obj = nat

  /** Opcodes, as far as the optimiser tells them apart.  `BRANCH` is any other opcode with
      an address, `NEW` one that pushes a value and does nothing else, `CMP` a comparison. */
  datatype Opc =
    | NOP | JUMP | JUMP_TRUE | JUMP_FALSE | JUMP_TRUE_N | JUMP_FALSE_N | JUMP_TRUE_R | JUMP_FALSE_R
    | BRANCH(b: nat) | NEW(kind: nat) | POP | RETURN | CMP(cmp: nat) | CMP_R(cmp: nat) | OTHER(o: nat)

  /** An instruction as executed: the argument of a jump is relative. */
  datatype Instr = Instr(opc: Opc, arg: int, line: int)

  /** An instruction of the intermediate form: `addr` is where it is put, `jmpto` the index
      it jumps to (-1: none) and `refs` the jumps to it (-1: struck out). */
  datatype Ins = Ins(opc: Opc, arg: int, line: int, addr: int, jmpto: int, refs: seq<int>)

  predicate IsJump(o: Opc) {
    o.JUMP? || o.JUMP_TRUE? || o.JUMP_FALSE? || o.JUMP_TRUE_N? || o.JUMP_FALSE_N? || o.JUMP_TRUE_R? || o.JUMP_FALSE_R? || o.BRANCH?
  }

  // ---------------------------------------------------------------------------
  // Running

  /** What the opcodes the optimiser does not look into do: whether a value counts as true,
      what a `NEW` pushes, whether another branch is taken, and any other step. */
  datatype Sem = Sem(
    truth: (Obj, nat) -> bool,
    new_: (nat, int, nat) -> Obj,
    branch: (Opc, seq<Obj>, nat) -> Outcome,
    act: (Opc, int, seq<Obj>, nat) -> Outcome)

  /** What such a step leaves: whether it branches, the stack, the rest of the world; or an
      error. */
  datatype Outcome = Did(taken: bool, stack: seq<Obj>, world: nat) | Error

  datatype Cfg = Cfg(pc: nat, stack: seq<Obj>, world: nat)

  datatype Step = Next(c: Cfg) | Returned(stack: seq<Obj>, world: nat) | Failed

  function Goto(il: seq<Ins>, to: int, stack: seq<Obj>, world: nat): Step {
    if 0 <= to < |il| then Next(Cfg(to, stack, world)) else Failed
  }

  /** A jump on the value on top, which stays or goes. */
  function OnTop(sem: Sem, il: seq<Ins>, c: Cfg, want: bool, pop: bool): Step
    requires c.pc < |il|
  {
    if c.stack == [] then Failed
    else
      var rest := if pop then c.stack[..|c.stack| - 1] else c.stack;
      if sem.truth(c.stack[|c.stack| - 1], c.world) == want then Goto(il, il[c.pc].jmpto, rest, c.world)
      else Goto(il, c.pc + 1, rest, c.world)
  }

  function Exec(sem: Sem, il: seq<Ins>, c: Cfg): Step {
    if c.pc >= |il| then Failed
    else
      var i := il[c.pc];
      match i.opc
      case NOP => Goto(il, c.pc + 1, c.stack, c.world)
      case JUMP => Goto(il, i.jmpto, c.stack, c.world)
      case JUMP_TRUE => OnTop(sem, il, c, true, true)
      case JUMP_FALSE => OnTop(sem, il, c, false, true)
      case JUMP_TRUE_N => OnTop(sem, il, c, true, false)
      case JUMP_FALSE_N => OnTop(sem, il, c, false, false)
      case NEW(kind) => Goto(il, c.pc + 1, c.stack + [sem.new_(kind, i.arg, c.world)], c.world)
      case POP => if c.stack == [] then Failed else Goto(il, c.pc + 1, c.stack[..|c.stack| - 1], c.world)
      case RETURN => Returned(c.stack, c.world)
      case _ =>
        if IsJump(i.opc) then
          match sem.branch(i.opc, c.stack, c.world)
          case Error => Failed
          case Did(taken, stack, world) => Goto(il, if taken then i.jmpto else c.pc + 1, stack, world)
        else
          match sem.act(i.opc, i.arg, c.stack, c.world)
          case Error => Failed
          case Did(_, stack, world) => Goto(il, c.pc + 1, stack, world)
  }

  /** `n` steps. */
  function Run(sem: Sem, il: seq<Ins>, c: Cfg, n: nat): Step
    decreases n
  {
    if n == 0 then Next(c)
    else match Exec(sem, il, c)
      case Next(d) => Run(sem, il, d, n - 1)
      case end => end
  }

  /** The run from `c` ends, and it ends with `end`. */
  ghost predicate Ends(sem: Sem, il: seq<Ins>, c: Cfg, end: Step) {
    !end.Next? && exists n :: Run(sem, il, c, n) == end
  }

  lemma {:induction false} RunPlus(sem: Sem, il: seq<Ins>, c: Cfg, n: nat, d: Cfg, m: nat)
    requires Run(sem, il, c, n) == Next(d)
    ensures Run(sem, il, c, n + m) == Run(sem, il, d, m)
    decreases n
  {
    if n > 0 {
      RunPlus(sem, il, Exec(sem, il, c).c, n - 1, d, m);
    }
  }

  /** A run that ends goes through every state it comes to. */
  lemma {:induction false} RunRest(sem: Sem, il: seq<Ins>, c: Cfg, n: nat, d: Cfg, m: nat)
    requires Run(sem, il, c, n) == Next(d) && !Run(sem, il, c, m).Next?
    ensures n < m && Run(sem, il, d, m - n) == Run(sem, il, c, m)
    decreases n
  {
    if n > 0 {
      RunRest(sem, il, Exec(sem, il, c).c, n - 1, d, m - 1);
    }
  }

  // ---------------------------------------------------------------------------
  // From instructions to the intermediate form

  /** Every jump stays inside, or goes right behind the last instruction. */
  ghost predicate WellJumps(p: seq<Instr>) {
    forall i | 0 <= i < |p| && IsJump(p[i].opc) :: 0 <= i + p[i].arg <= |p|
  }

  /** The jumps among the first `n` instructions to `t`, in order. */
  function JumpsTo(p: seq<Instr>, t: int, n: nat): seq<int>
    requires n <= |p|
  {
    if n == 0 then []
    else JumpsTo(p, t, n - 1) + (if IsJump(p[n - 1].opc) && n - 1 + p[n - 1].arg == t then [n - 1] else [])
  }

  function Lifted(p: seq<Instr>, i: nat): Ins
    requires i < |p|
  {
    Ins(p[i].opc, p[i].arg, p[i].line, -1, if IsJump(p[i].opc) then i + p[i].arg else -1, JumpsTo(p, i, |p|))
  }

  /** The `return` at the end. */
  function Final(p: seq<Instr>): Ins {
    Ins(RETURN, 0, -1, -1, -1, JumpsTo(p, |p|, |p|))
  }

  /** A `return` is needed at the end: something jumps there, or the last instruction is no
      `return`. */
  predicate NeedsReturn(p: seq<Instr>) {
    p == [] || p[|p| - 1].opc != RETURN || exists i :: 0 <= i < |p| && IsJump(p[i].opc) && i + p[i].arg >= |p|
  }

  function Lift(p: seq<Instr>): (il: seq<Ins>)
    ensures |il| == |p| + (if NeedsReturn(p) then 1 else 0)
  {
    seq(|p|, i requires 0 <= i < |p| => Lifted(p, i)) + (if NeedsReturn(p) then [Final(p)] else [])
  }

  /** A program runs as if it were followed by a `return`. */
  function Program(p: seq<Instr>): seq<Ins> {
    seq(|p|, i requires 0 <= i < |p| => Lifted(p, i)) + [Final(p)]
  }
}
