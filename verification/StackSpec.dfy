/** What the stack of a coroutine means: activations, each a row of nested blocks, each
    with the values pushed inside it.  The opcodes as functions on that picture, and
    what they keep over whole runs. */
module StackSpec {

  /** A value on the operand stack. */
  type Obj = nat

  /** The values of one block, and where it resumes when an exception is raised in it
      (0: nowhere).  The outermost block of an activation is never armed. */
  datatype Seg = Seg(catch: nat, vals: seq<Obj>)

  /** A call that has not returned: its scope, the next instruction (0 in native code),
      how many values its caller has to drop when it returns, and its blocks. */
  datatype Act = Act(ctx: nat, ip: nat, dump: nat, segs: seq<Seg>)

  /** What an opcode leads to: the coroutine runs on, the native code that entered the
      interpreter gets control back, the coroutine is over, or the stack was too short. */
  datatype Outcome = Running(acts: seq<Act>) | Left(acts: seq<Act>) | Over | Fatal

  // ---------------------------------------------------------------------------
  // The picture

  ghost predicate WfAct(a: Act) {
    a.segs != [] && a.segs[0].catch == 0 && a.dump <= 2
  }

  function Inner(a: Act): Seg
    requires a.segs != []
  {
    a.segs[|a.segs| - 1]
  }

  /** The caller has what it will have to drop; native code never has to. */
  ghost predicate WfCall(caller: Act, callee: Act) {
    caller.segs != [] && callee.dump <= |Inner(caller).vals| && (caller.ip == 0 ==> callee.dump == 0)
  }

  ghost predicate Wf(acts: seq<Act>) {
    && acts != []
    && (forall i | 0 <= i < |acts| :: WfAct(acts[i]))
    && (forall i | 0 < i < |acts| :: WfCall(acts[i - 1], acts[i]))
  }

  function Top(acts: seq<Act>): Act
    requires acts != []
  {
    acts[|acts| - 1]
  }

  /** The values an instruction can reach. */
  function Vals(acts: seq<Act>): seq<Obj>
    requires Wf(acts)
  {
    Inner(Top(acts)).vals
  }

  /** Another activation on top: of the same call, so the caller does not notice. */
  function WithTop(acts: seq<Act>, a: Act): (r: seq<Act>)
    requires Wf(acts) && WfAct(a) && a.dump == Top(acts).dump
    ensures Wf(r) && Top(r) == a && |r| == |acts| && r[..|r| - 1] == acts[..|acts| - 1]
  {
    acts[..|acts| - 1] + [a]
  }

  function WithVals(a: Act, vals: seq<Obj>): (r: Act)
    requires WfAct(a)
    ensures WfAct(r) && Inner(r).vals == vals && |r.segs| == |a.segs| && r == a.(segs := r.segs)
  {
    a.(segs := a.segs[..|a.segs| - 1] + [Inner(a).(vals := vals)])
  }

  // ---------------------------------------------------------------------------
  // The opcodes

  function PushVal(acts: seq<Act>, v: Obj): (r: seq<Act>)
    requires Wf(acts)
    ensures Wf(r) && Vals(r) == Vals(acts) + [v]
  {
    WithTop(acts, WithVals(Top(acts), Vals(acts) + [v]))
  }

  function PopVal(acts: seq<Act>): (r: seq<Act>)
    requires Wf(acts) && Vals(acts) != []
    ensures Wf(r) && Vals(r) == Vals(acts)[..|Vals(acts)| - 1]
  {
    WithTop(acts, WithVals(Top(acts), Vals(acts)[..|Vals(acts)| - 1]))
  }

  /** A new block that takes all but the first `n` values of the current one along. */
  function PushBlockAt(acts: seq<Act>, n: nat): (r: seq<Act>)
    requires Wf(acts) && n <= |Vals(acts)|
    ensures Wf(r) && Vals(r) == Vals(acts)[n..]
  {
    var outer := WithVals(Top(acts), Vals(acts)[..n]);
    WithTop(acts, outer.(segs := outer.segs + [Seg(0, Vals(acts)[n..])]))
  }

  /** Without a block of its own an activation ignores this. */
  function PopBlock(acts: seq<Act>): (r: seq<Act>)
    requires Wf(acts)
    ensures Wf(r)
  {
    var segs := Top(acts).segs;
    if |segs| == 1 then acts else WithTop(acts, Top(acts).(segs := segs[..|segs| - 1]))
  }

  function PopBlocks(acts: seq<Act>, n: nat): (r: seq<Act>)
    requires Wf(acts)
    ensures Wf(r)
    decreases n
  {
    if n == 0 then acts else PopBlocks(PopBlock(acts), n - 1)
  }

  /** Leaving a block and keeping the value on top. */
  function PopBlockS1(acts: seq<Act>): (r: seq<Act>)
    requires Wf(acts) && Vals(acts) != []
    ensures Wf(r)
  {
    PushVal(PopBlock(PopVal(acts)), Vals(acts)[|Vals(acts)| - 1])
  }

  function SetCatch(acts: seq<Act>, catch: nat): (r: seq<Act>)
    requires Wf(acts) && |Top(acts).segs| > 1
    ensures Wf(r) && Vals(r) == Vals(acts)
  {
    var a := Top(acts);
    WithTop(acts, a.(segs := a.segs[..|a.segs| - 1] + [Inner(a).(catch := catch)]))
  }

  /** The innermost armed block, or 0. */
  function Armed(segs: seq<Seg>): (k: nat)
    ensures k != 0 ==> k < |segs|
  {
    if |segs| <= 1 then 0
    else if segs[|segs| - 1].catch != 0 then |segs| - 1
    else Armed(segs[..|segs| - 1])
  }

  /** The activation resumes in its block `k`, disarmed, with the exception on top. */
  function Resumed(a: Act, k: nat, exc: Obj): (r: Act)
    requires WfAct(a) && k < |a.segs|
    ensures WfAct(r) && r.dump == a.dump
  {
    a.(ip := a.segs[k].catch, segs := a.segs[..k] + [Seg(0, a.segs[k].vals + [exc])])
  }

  function Raise(acts: seq<Act>, exc: Obj): (r: Outcome)
    requires Wf(acts)
    ensures r.Running? || r.Left? ==> Wf(r.acts)
    decreases |acts|
  {
    var a := Top(acts);
    var k := Armed(a.segs);
    if k != 0 then Running(WithTop(acts, Resumed(a, k, exc)))
    else if |acts| == 1 then Over
    else if acts[|acts| - 2].ip == 0 then Left(acts[..|acts| - 1])
    else Raise(acts[..|acts| - 1], exc)
  }

  /** How a call treats what is on the stack: `values` are the base, if there is one, and
      the callee; when the callee has a parameter list they are dropped and the
      arguments matched, otherwise they stay and the arguments are handed over. */
  datatype Call = Call(ctx: nat, entry: nat, ret: nat, values: seq<Obj>, direct: bool)

  ghost predicate WfInvoke(acts: seq<Act>, argc: nat, taken: nat, call: Call) {
    Wf(acts) && argc + taken <= |Vals(acts)| && |call.values| <= 2 && call.ret != 0
  }

  /** The caller of a call of `argc` arguments: `taken` values below them make way. */
  function Caller(acts: seq<Act>, argc: nat, taken: nat, call: Call): (r: Act)
    requires WfInvoke(acts, argc, taken, call)
    ensures WfAct(r) && r.dump == Top(acts).dump && r.ip == call.ret
    ensures Inner(r).vals == Vals(acts)[..|Vals(acts)| - argc - taken] + (if call.direct then call.values else [])
  {
    var rest := Vals(acts)[..|Vals(acts)| - argc - taken];
    WithVals(Top(acts), rest + (if call.direct then call.values else [])).(ip := call.ret)
  }

  function Callee(acts: seq<Act>, argc: nat, call: Call): (r: Act)
    requires Wf(acts) && argc <= |Vals(acts)| && |call.values| <= 2
    ensures WfAct(r)
  {
    var args := Vals(acts)[|Vals(acts)| - argc..];
    Act(call.ctx, call.entry, if call.direct then |call.values| else 0, [Seg(0, if call.direct then args else [])])
  }

  function Invoke(acts: seq<Act>, argc: nat, taken: nat, call: Call): (r: seq<Act>)
    requires WfInvoke(acts, argc, taken, call)
    ensures Wf(r)
  {
    WithTop(acts, Caller(acts, argc, taken, call)) + [Callee(acts, argc, call)]
  }

  /** A call from native code: no values are involved. */
  function Enter(acts: seq<Act>, ctx: nat, entry: nat): (r: seq<Act>)
    requires Wf(acts)
    ensures Wf(r)
  {
    acts + [Act(ctx, entry, 0, [Seg(0, [])])]
  }

  /** What the caller keeps on its stack when the call on top returns. */
  function Kept(acts: seq<Act>): seq<Obj>
    requires Wf(acts) && |acts| >= 2
  {
    var vals := Inner(acts[|acts| - 2]).vals;
    assert WfCall(acts[|acts| - 2], acts[|acts| - 1]);
    vals[..|vals| - Top(acts).dump]
  }

  function Return(acts: seq<Act>, v: Obj): (r: Outcome)
    requires Wf(acts)
    ensures r.Running? || r.Left? ==> Wf(r.acts)
  {
    if |acts| == 1 then Over
    else
      var below := acts[..|acts| - 1];
      if Top(below).ip == 0 then Left(WithTop(below, WithVals(Top(below), Kept(acts))))
      else Running(WithTop(below, WithVals(Top(below), Kept(acts) + [v])))
  }

  // ---------------------------------------------------------------------------
  // Runs

  datatype Op =
    | OpPush(v: Obj) | OpPop
    | OpPushBlock | OpPushBlockS1 | OpPushBlockAt(n: nat)
    | OpPopBlock | OpPopBlockS1 | OpIntLoop(n: nat)
    | OpSetCatch(catch: nat) | OpRaise
    | OpInvoke(argc: nat, taken: nat, call: Call) | OpEnter(ctx: nat, entry: nat) | OpReturn(none: Obj)

  /** One opcode. */
  ghost function Exec(acts: seq<Act>, op: Op): (r: Outcome)
    requires Wf(acts)
    ensures r.Running? || r.Left? ==> Wf(r.acts)
  {
    var vals := Vals(acts);
    match op
    case OpPush(v) => Running(PushVal(acts, v))
    case OpPop => if vals == [] then Fatal else Running(PopVal(acts))
    case OpPushBlock => Running(PushBlockAt(acts, |vals|))
    case OpPushBlockS1 => if vals == [] then Fatal else Running(PushBlockAt(acts, |vals| - 1))
    case OpPushBlockAt(n) => if n > |vals| then Fatal else Running(PushBlockAt(acts, n))
    case OpPopBlock => Running(PopBlock(acts))
    case OpPopBlockS1 => if vals == [] then Fatal else Running(PopBlockS1(acts))
    case OpIntLoop(n) => Running(PopBlocks(acts, n))
    case OpSetCatch(catch) => if |Top(acts).segs| == 1 then Fatal else Running(SetCatch(acts, catch))
    case OpRaise => if vals == [] then Fatal else Raise(PopVal(acts), vals[|vals| - 1])
    case OpInvoke(argc, taken, call) =>
      if WfInvoke(acts, argc, taken, call) then Running(Invoke(acts, argc, taken, call)) else Fatal
    case OpEnter(ctx, entry) => Running(Enter(acts, ctx, entry))
    case OpReturn(none) => Return(acts, if vals == [] then none else vals[|vals| - 1])
  }

  /** A whole run: what every opcode leaves is what the next one finds. */
  ghost predicate IsRun(states: seq<seq<Act>>, ops: seq<Op>) {
    && |states| == |ops| + 1 && Wf(states[0])
    && forall i | 0 <= i < |ops| ::
         Wf(states[i]) && (Exec(states[i], ops[i]) == Running(states[i + 1]) || Exec(states[i], ops[i]) == Left(states[i + 1]))
  }

  /** Block `k` of activation `n` is still there. */
  ghost predicate Open(acts: seq<Act>, n: nat, k: nat) {
    n < |acts| && (n == |acts| - 1 ==> k < |acts[n].segs|)
  }

  /** What lies below block `k` of activation `n` is the same in both. */
  ghost predicate SameBelow(a: seq<Act>, b: seq<Act>, n: nat, k: nat) {
    && n < |a| && n < |b| && k <= |a[n].segs| && k <= |b[n].segs|
    && a[..n] == b[..n] && a[n].segs[..k] == b[n].segs[..k] && a[n].dump == b[n].dump
  }

  lemma WithTopBelow(acts: seq<Act>, a: Act, n: nat, k: nat)
    requires Wf(acts) && WfAct(a) && a.dump == Top(acts).dump && n < |acts| && k <= |acts[n].segs|
    requires n == |acts| - 1 ==> k <= |a.segs| && a.segs[..k] == Top(acts).segs[..k]
    ensures SameBelow(acts, WithTop(acts, a), n, k)
  {
    var r := WithTop(acts, a);
    assert forall i | 0 <= i < |acts| - 1 :: r[i] == r[..|r| - 1][i] == acts[..|acts| - 1][i] == acts[i];
  }

  lemma PrefixBelow(acts: seq<Act>, m: nat, n: nat, k: nat)
    requires n < m <= |acts| && k <= |acts[n].segs|
    ensures SameBelow(acts, acts[..m], n, k)
  {
  }

  lemma SameBelowTrans(a: seq<Act>, b: seq<Act>, c: seq<Act>, n: nat, k: nat)
    requires SameBelow(a, b, n, k) && SameBelow(b, c, n, k)
    ensures SameBelow(a, c, n, k)
  {
  }

  lemma {:induction false} ArmedIsInnermost(segs: seq<Seg>)
    ensures var k := Armed(segs);
            && (k != 0 ==> segs[k].catch != 0)
            && forall j | k < j < |segs| && 0 < j :: segs[j].catch == 0
  {
    if |segs| > 1 && segs[|segs| - 1].catch == 0 {
      var front := segs[..|segs| - 1];
      ArmedIsInnermost(front);
      assert forall j | 0 <= j < |front| :: front[j] == segs[j];
    }
  }

  /** Activations above `n` that an exception runs through: nothing in them is armed and
      none of them was called from native code. */
  ghost predicate Passed(acts: seq<Act>, n: nat) {
    forall i, j | n < i < |acts| && 0 < j < |acts[i].segs| :: acts[i].segs[j].catch == 0
  }

  ghost predicate NoNative(acts: seq<Act>, n: nat) {
    forall i | n <= i < |acts| - 1 :: acts[i].ip != 0
  }

  /** `r` is `acts` resumed in block `k` of activation `n`: that block is armed in `acts` and
      nothing inside it is; it is disarmed and gets the exception, everything inside it is
      gone and everything outside it is as before. */
  ghost predicate ResumedAt(acts: seq<Act>, r: seq<Act>, n: nat, k: nat, exc: Obj) {
    && n < |acts| && Passed(acts, n) && NoNative(acts, n)
    && 0 < k < |acts[n].segs| && acts[n].segs[k].catch != 0
    && (forall j | k < j < |acts[n].segs| :: acts[n].segs[j].catch == 0)
    && |r| == n + 1 && |r[n].segs| == k + 1 && SameBelow(acts, r, n, k)
    && acts[n].segs != [] && WfAct(acts[n]) && r[n] == Resumed(acts[n], k, exc)
  }

  lemma ResumedFurther(acts: seq<Act>, r: seq<Act>, n: nat, k: nat, exc: Obj)
    requires Wf(acts) && |acts| > 1 && ResumedAt(acts[..|acts| - 1], r, n, k, exc)
    requires acts[|acts| - 2].ip != 0
    requires forall j | 0 < j < |Top(acts).segs| :: Top(acts).segs[j].catch == 0
    ensures ResumedAt(acts, r, n, k, exc)
  {
    var below := acts[..|acts| - 1];
    assert forall i | 0 <= i < |below| :: below[i] == acts[i];
    forall i, j | n < i < |acts| && 0 < j < |acts[i].segs| ensures acts[i].segs[j].catch == 0 {
      if i < |below| {
        assert below[i].segs[j].catch == 0;
      } else {
        assert Top(acts).segs[j].catch == 0;
      }
    }
    PrefixBelow(acts, |below|, n, k);
    SameBelowTrans(acts, below, r, n, k);
  }

  lemma SomeBlock(acts: seq<Act>)
    requires Wf(acts)
    ensures |acts| > 0 && |Top(acts).segs| > 0
  {
  }

  /** One step of an exception on its way. */
  lemma RaiseStep(acts: seq<Act>, exc: Obj)
    requires Wf(acts)
    ensures var k := Armed(Top(acts).segs);
            if k != 0 then Raise(acts, exc) == Running(WithTop(acts, Resumed(Top(acts), k, exc)))
            else if |acts| == 1 then Raise(acts, exc).Over?
            else if acts[|acts| - 2].ip == 0 then Raise(acts, exc) == Left(acts[..|acts| - 1])
            else Wf(acts[..|acts| - 1]) && Raise(acts, exc) == Raise(acts[..|acts| - 1], exc)
  {
    hide Armed, Resumed, WithTop;
  }

  /** An exception resumes the innermost armed block there is down to native code. */
  lemma {:induction false} RaiseResumes(acts: seq<Act>, exc: Obj)
    requires Wf(acts) && Raise(acts, exc).Running?
    ensures var r := Raise(acts, exc).acts; ResumedAt(acts, r, |r| - 1, |Top(r).segs| - 1, exc)
    decreases |acts|
  {
    hide Raise, Armed, Resumed, WithTop, ResumedAt, SameBelow, WfAct;
    SomeBlock(acts);
    RaiseStep(acts, exc);
    var r, k := Raise(acts, exc).acts, Armed(Top(acts).segs);
    SomeBlock(r);
    if k != 0 {
      ResumedHere(acts, k, exc);
    } else {
      ArmedIsInnermost(Top(acts).segs);
      RaiseResumes(acts[..|acts| - 1], exc);
      ResumedFurther(acts, r, |r| - 1, |Top(r).segs| - 1, exc);
    }
  }

  lemma ResumedHere(acts: seq<Act>, k: nat, exc: Obj)
    requires Wf(acts) && k == Armed(Top(acts).segs) != 0
    ensures ResumedAt(acts, WithTop(acts, Resumed(Top(acts), k, exc)), |acts| - 1, k, exc)
    ensures |Resumed(Top(acts), k, exc).segs| == k + 1
  {
    ArmedIsInnermost(Top(acts).segs);
    hide Armed;
    WithTopBelow(acts, Resumed(Top(acts), k, exc), |acts| - 1, k);
  }

  /** An exception ends the coroutine exactly when no activation has an armed block and
      none was called from native code. */
  lemma {:induction false} RaiseKills(acts: seq<Act>, exc: Obj)
    requires Wf(acts)
    ensures Raise(acts, exc).Over? <==>
      NoNative(acts, 0) && forall i, j | 0 <= i < |acts| && 0 < j < |acts[i].segs| :: acts[i].segs[j].catch == 0
    decreases |acts|
  {
    var a := Top(acts);
    var k := Armed(a.segs);
    ArmedIsInnermost(a.segs);
    if k == 0 && |acts| > 1 {
      var below := acts[..|acts| - 1];
      assert forall i | 0 <= i < |below| :: below[i] == acts[i];
      assert Top(below) == acts[|acts| - 2];
      RaiseKills(below, exc);
    } else if k != 0 {
      assert acts[|acts| - 1].segs[k].catch != 0;
    }
  }

  /** An exception that reaches native code leaves that activation and what is below
      alone. */
  lemma {:induction false} RaiseLeaves(acts: seq<Act>, exc: Obj)
    requires Wf(acts) && Raise(acts, exc).Left?
    ensures var r := Raise(acts, exc).acts;
            |r| < |acts| && r == acts[..|r|] && Top(r).ip == 0 && Passed(acts, |r| - 1) && NoNative(acts, |r|)
    decreases |acts|
  {
    var a := Top(acts);
    ArmedIsInnermost(a.segs);
    if acts[|acts| - 2].ip != 0 {
      var below := acts[..|acts| - 1];
      RaiseLeaves(below, exc);
      assert forall i | 0 <= i < |below| :: below[i] == acts[i];
    }
  }

  lemma PopBlockBelow(acts: seq<Act>, n: nat, k: nat)
    requires Wf(acts) && Open(PopBlock(acts), n, k) && n < |acts| && k < |acts[n].segs|
    ensures SameBelow(acts, PopBlock(acts), n, k) && k < |PopBlock(acts)[n].segs|
  {
    if |Top(acts).segs| > 1 {
      var segs := Top(acts).segs;
      WithTopBelow(acts, Top(acts).(segs := segs[..|segs| - 1]), n, k);
    }
  }

  lemma {:induction false} PopBlocksBelow(acts: seq<Act>, m: nat, n: nat, k: nat)
    requires Wf(acts) && Open(PopBlocks(acts, m), n, k) && n < |acts| && k < |acts[n].segs|
    ensures SameBelow(acts, PopBlocks(acts, m), n, k) && k < |PopBlocks(acts, m)[n].segs|
    decreases m
  {
    if m != 0 {
      PopBlocksShrink(PopBlock(acts), m - 1);
      PopBlockBelow(acts, n, k);
      PopBlocksBelow(PopBlock(acts), m - 1, n, k);
      SameBelowTrans(acts, PopBlock(acts), PopBlocks(acts, m), n, k);
    }
  }

  lemma {:induction false} PopBlocksShrink(acts: seq<Act>, m: nat)
    requires Wf(acts)
    ensures var r := PopBlocks(acts, m); |r| == |acts| && |Top(r).segs| <= |Top(acts).segs|
    decreases m
  {
    if m != 0 {
      PopBlocksShrink(PopBlock(acts), m - 1);
    }
  }

  lemma PopBlockS1Below(acts: seq<Act>, n: nat, k: nat)
    requires Wf(acts) && Vals(acts) != [] && Open(PopBlockS1(acts), n, k) && n < |acts| && k < |acts[n].segs|
    ensures SameBelow(acts, PopBlockS1(acts), n, k) && k < |PopBlockS1(acts)[n].segs|
  {
    var a, v := PopVal(acts), Vals(acts)[|Vals(acts)| - 1];
    var b := PopBlock(a);
    WithTopBelow(acts, WithVals(Top(acts), Vals(acts)[..|Vals(acts)| - 1]), n, k);
    PopBlockBelow(a, n, k);
    WithTopBelow(b, WithVals(Top(b), Vals(b) + [v]), n, k);
    SameBelowTrans(acts, a, b, n, k);
    SameBelowTrans(acts, b, PopBlockS1(acts), n, k);
  }

  /** What is the same below a block is the same below any block around it. */
  lemma FurtherBelow(a: seq<Act>, b: seq<Act>, n1: nat, k1: nat, n: nat, k: nat)
    requires SameBelow(a, b, n1, k1) && (n < n1 || (n == n1 && k <= k1)) && n < |a| && k <= |a[n].segs|
    ensures SameBelow(a, b, n, k) && (n < n1 ==> b[n] == a[n])
  {
    assert a[..n] == a[..n1][..n] == b[..n1][..n] == b[..n];
    if n < n1 {
      assert a[n] == a[..n1][n] == b[..n1][n] == b[n];
    } else {
      assert a[n].segs[..k] == a[n].segs[..k1][..k] == b[n].segs[..k1][..k] == b[n].segs[..k];
    }
  }

  lemma ResumedBelow(acts: seq<Act>, r: seq<Act>, n1: nat, k1: nat, exc: Obj, n: nat, k: nat)
    requires ResumedAt(acts, r, n1, k1, exc) && n < |acts| && k < |acts[n].segs| && Open(r, n, k)
    ensures SameBelow(acts, r, n, k) && k < |r[n].segs|
  {
    hide Passed, NoNative, Resumed, WfAct, SameBelow;
    FurtherBelow(acts, r, n1, k1, n, k);
  }

  lemma LeftBelow(acts: seq<Act>, r: seq<Act>, n: nat, k: nat)
    requires |r| <= |acts| && r == acts[..|r|] && n < |r| && k < |acts[n].segs|
    ensures SameBelow(acts, r, n, k) && k < |r[n].segs|
  {
    PrefixBelow(acts, |r|, n, k);
  }

  lemma RaiseBelow(acts: seq<Act>, exc: Obj, r: seq<Act>, n: nat, k: nat)
    requires Wf(acts) && (Raise(acts, exc) == Running(r) || Raise(acts, exc) == Left(r))
    requires n < |acts| && k < |acts[n].segs| && Open(r, n, k)
    ensures SameBelow(acts, r, n, k) && k < |r[n].segs|
  {
    hide Raise, Resumed, Passed, NoNative, Wf, WfAct, SameBelow, ResumedAt;
    if Raise(acts, exc).Running? {
      RaiseResumes(acts, exc);
      SomeBlock(r);
      ResumedBelow(acts, r, |r| - 1, |Top(r).segs| - 1, exc, n, k);
    } else {
      RaiseLeaves(acts, exc);
      LeftBelow(acts, r, n, k);
    }
  }

  lemma ReturnBelow(acts: seq<Act>, v: Obj, r: seq<Act>, n: nat, k: nat)
    requires Wf(acts) && (Return(acts, v) == Running(r) || Return(acts, v) == Left(r))
    requires n < |acts| && k < |acts[n].segs| && Open(r, n, k)
    ensures SameBelow(acts, r, n, k) && k < |r[n].segs|
  {
    var below := acts[..|acts| - 1];
    assert Top(r) == WithVals(Top(below), Vals(r));
    PrefixBelow(acts, |below|, n, k);
    WithTopBelow(below, Top(r), n, k);
    SameBelowTrans(acts, below, r, n, k);
  }

  lemma InvokeBelow(acts: seq<Act>, argc: nat, taken: nat, call: Call, n: nat, k: nat)
    requires WfInvoke(acts, argc, taken, call) && n < |acts| && k < |acts[n].segs|
    ensures SameBelow(acts, Invoke(acts, argc, taken, call), n, k) && k < |Invoke(acts, argc, taken, call)[n].segs|
  {
    var caller := Caller(acts, argc, taken, call);
    WithTopBelow(acts, caller, n, k);
    PrefixBelow(Invoke(acts, argc, taken, call), |acts|, n, k);
  }

  /** Nothing below the block has changed, and the block is there. */
  ghost predicate KeptBelow(acts: seq<Act>, r: seq<Act>, n: nat, k: nat) {
    SameBelow(acts, r, n, k) && k < |r[n].segs|
  }

  lemma PushValBelow(acts: seq<Act>, v: Obj, n: nat, k: nat)
    requires Wf(acts) && n < |acts| && k < |acts[n].segs|
    ensures KeptBelow(acts, PushVal(acts, v), n, k)
  {
    WithTopBelow(acts, WithVals(Top(acts), Vals(acts) + [v]), n, k);
  }

  lemma PopValBelow(acts: seq<Act>, n: nat, k: nat)
    requires Wf(acts) && Vals(acts) != [] && n < |acts| && k < |acts[n].segs|
    ensures KeptBelow(acts, PopVal(acts), n, k) && |PopVal(acts)| == |acts|
  {
    WithTopBelow(acts, WithVals(Top(acts), Vals(acts)[..|Vals(acts)| - 1]), n, k);
  }

  lemma PushBlockBelow(acts: seq<Act>, m: nat, n: nat, k: nat)
    requires Wf(acts) && m <= |Vals(acts)| && n < |acts| && k < |acts[n].segs|
    ensures KeptBelow(acts, PushBlockAt(acts, m), n, k)
  {
    WithTopBelow(acts, Top(PushBlockAt(acts, m)), n, k);
  }

  lemma SetCatchBelow(acts: seq<Act>, catch: nat, n: nat, k: nat)
    requires Wf(acts) && |Top(acts).segs| != 1 && n < |acts| && k < |acts[n].segs|
    ensures KeptBelow(acts, SetCatch(acts, catch), n, k)
  {
    WithTopBelow(acts, Top(SetCatch(acts, catch)), n, k);
  }

  lemma RaisePopBelow(acts: seq<Act>, exc: Obj, r: seq<Act>, n: nat, k: nat)
    requires Wf(acts) && Vals(acts) != [] && (Raise(PopVal(acts), exc) == Running(r) || Raise(PopVal(acts), exc) == Left(r))
    requires n < |acts| && k < |acts[n].segs| && Open(r, n, k)
    ensures KeptBelow(acts, r, n, k)
  {
    hide Raise, PopVal, SameBelow, Open;
    PopValBelow(acts, n, k);
    SameBelowFacts(acts, PopVal(acts), n, k);
    RaiseBelow(PopVal(acts), exc, r, n, k);
    SameBelowTrans(acts, PopVal(acts), r, n, k);
  }

  lemma SameBelowFacts(a: seq<Act>, b: seq<Act>, n: nat, k: nat)
    requires SameBelow(a, b, n, k)
    ensures n < |a| && n < |b| && k <= |a[n].segs| && k <= |b[n].segs|
  {
  }

  lemma EnterBelow(acts: seq<Act>, ctx: nat, entry: nat, n: nat, k: nat)
    requires Wf(acts) && n < |acts| && k < |acts[n].segs|
    ensures KeptBelow(acts, Enter(acts, ctx, entry), n, k)
  {
    PrefixBelow(Enter(acts, ctx, entry), |acts|, n, k);
  }

  /** No opcode touches anything below a block that stays open. */
  lemma ExecKeepsBelow(acts: seq<Act>, op: Op, r: seq<Act>, n: nat, k: nat)
    requires Wf(acts) && (Exec(acts, op) == Running(r) || Exec(acts, op) == Left(r))
    requires n < |acts| && k < |acts[n].segs| && Open(r, n, k)
    ensures KeptBelow(acts, r, n, k)
  {
    hide SameBelow, Open, Wf, Raise, Return, PushVal, PopVal, PushBlockAt, PopBlock, PopBlocks, PopBlockS1, SetCatch, Invoke, Enter,
      WfInvoke;
    var vals := Vals(acts);
    match op
    case OpPush(v) => PushValBelow(acts, v, n, k);
    case OpPop => PopValBelow(acts, n, k);
    case OpPushBlock => PushBlockBelow(acts, |vals|, n, k);
    case OpPushBlockS1 => PushBlockBelow(acts, |vals| - 1, n, k);
    case OpPushBlockAt(m) => PushBlockBelow(acts, m, n, k);
    case OpSetCatch(catch) => SetCatchBelow(acts, catch, n, k);
    case OpRaise => RaisePopBelow(acts, vals[|vals| - 1], r, n, k);
    case OpReturn(none) => ReturnBelow(acts, if vals == [] then none else vals[|vals| - 1], r, n, k);
    case OpInvoke(argc, taken, call) => InvokeBelow(acts, argc, taken, call, n, k);
    case OpEnter(ctx, entry) => EnterBelow(acts, ctx, entry, n, k);
    case OpIntLoop(m) => PopBlocksBelow(acts, m, n, k);
    case OpPopBlock => PopBlockBelow(acts, n, k);
    case OpPopBlockS1 => PopBlockS1Below(acts, n, k);
  }

  /** Over a whole run, too, as long as the block is never closed. */
  lemma {:induction false} RunKeepsBelow(states: seq<seq<Act>>, ops: seq<Op>, n: nat, k: nat)
    requires IsRun(states, ops) && n < |states[0]| && k < |states[0][n].segs|
    requires forall i | 0 <= i < |states| :: Open(states[i], n, k)
    ensures SameBelow(states[0], states[|ops|], n, k) && k < |states[|ops|][n].segs|
    decreases |ops|
  {
    if ops != [] {
      var m := |ops| - 1;
      var states', ops' := states[..|states| - 1], ops[..m];
      assert forall i | 0 <= i <= m :: states'[i] == states[i];
      assert IsRun(states', ops') by {
        assert forall i | 0 <= i < m :: ops'[i] == ops[i];
      }
      RunKeepsBelow(states', ops', n, k);
      ExecKeepsBelow(states[m], ops[m], states[|ops|], n, k);
      SameBelowTrans(states[0], states[m], states[|ops|], n, k);
    }
  }

  /** A block is entered, whatever happens inside it, exceptions, calls and returns
      included, and it is left: what lies outside is as it was, and of the block it was
      entered from only the values it took along are missing. */
  lemma BlockRestores(acts: seq<Act>, m: nat, states: seq<seq<Act>>, ops: seq<Op>)
    requires Wf(acts) && m <= |Vals(acts)| && IsRun(states, ops) && states[0] == PushBlockAt(acts, m)
    requires var n, k := |acts| - 1, |Top(acts).segs|;
             && (forall i | 0 <= i < |states| :: Open(states[i], n, k))
             && |states[|ops|]| == n + 1 && |Top(states[|ops|]).segs| == k + 1 && Wf(states[|ops|])
    ensures var r := PopBlock(states[|ops|]);
            && r[..|r| - 1] == acts[..|acts| - 1] && |r| == |acts|
            && Top(r).segs == WithVals(Top(acts), Vals(acts)[..m]).segs
  {
    RunKeepsBelow(states, ops, |acts| - 1, |Top(acts).segs|);
  }

  /** A call replaces callee and arguments by one result and leaves everything below
      alone, whichever way the arguments were passed. */
  lemma CallReplaces(acts: seq<Act>, argc: nat, taken: nat, call: Call, states: seq<seq<Act>>, ops: seq<Op>, v: Obj)
    requires WfInvoke(acts, argc, taken, call) && IsRun(states, ops) && states[0] == Invoke(acts, argc, taken, call)
    requires (forall i | 0 <= i < |states| :: Open(states[i], |acts|, 0))
    requires |states[|ops|]| == |acts| + 1 && Wf(states[|ops|])
    ensures Return(states[|ops|], v).Running?
    ensures var r := Return(states[|ops|], v).acts;
            && |r| == |acts| && r[..|r| - 1] == acts[..|acts| - 1] && Top(r).ip == call.ret
            && Top(r).segs == WithVals(Top(acts), Vals(acts)[..|Vals(acts)| - argc - taken] + [v]).segs
  {
    var n := |acts|;
    var last := states[|ops|];
    RunKeepsBelow(states, ops, n, 0);
    assert last[..n] == states[0][..n] == WithTop(acts, Caller(acts, argc, taken, call));
    assert last[n].dump == states[0][n].dump == Callee(acts, argc, call).dump;
    var rest := Vals(acts)[..|Vals(acts)| - argc - taken];
    assert Top(last[..n]) == Caller(acts, argc, taken, call);
    assert Kept(last) == rest;
  }

  /** After an exception the handler's block, once left, gives back the block around it
      exactly as the run without the exception would have. */
  lemma RaiseThenPop(acts: seq<Act>, exc: Obj)
    requires Wf(acts) && Raise(acts, exc).Running?
    ensures var r := Raise(acts, exc).acts;
            var n, k := |r| - 1, |Top(r).segs| - 1;
            && n < |acts| && k < |acts[n].segs| && k > 0
            && PopBlock(r)[..n] == acts[..n] && Top(PopBlock(r)).segs == acts[n].segs[..k]
  {
    hide Raise, ResumedAt, PopBlock;
    RaiseResumes(acts, exc);
    var r := Raise(acts, exc).acts;
    ResumedPop(acts, r, |r| - 1, |Top(r).segs| - 1, exc);
  }

  lemma ResumedPop(acts: seq<Act>, r: seq<Act>, n: nat, k: nat, exc: Obj)
    requires Wf(acts) && Wf(r) && ResumedAt(acts, r, n, k, exc)
    ensures n < |acts| && 0 < k < |acts[n].segs| && PopBlock(r)[..n] == acts[..n] && Top(PopBlock(r)).segs == acts[n].segs[..k]
  {
    assert r[..n] == acts[..n];
  }

  /** An exception gets to an activation that has an armed block, through activations that
      have none and were not called from native code. */
  lemma {:induction false} RaiseReaches(acts: seq<Act>, n: nat, exc: Obj)
    requires Wf(acts) && n < |acts| && Passed(acts, n) && NoNative(acts, n) && Armed(acts[n].segs) != 0
    ensures Raise(acts, exc).Running?
    ensures var r := Raise(acts, exc).acts; |r| == n + 1 && |Top(r).segs| == Armed(acts[n].segs) + 1
    decreases |acts|
  {
    var m := |acts| - 1;
    if n < m {
      ArmedIsInnermost(acts[m].segs);
      var below := acts[..m];
      assert forall i | 0 <= i < m :: below[i] == acts[i];
      RaiseReaches(below, n, exc);
    } else {
      hide Armed;
    }
  }

  /** The call has left the caller's side of it alone so far. */
  lemma CallerKept(acts: seq<Act>, argc: nat, taken: nat, call: Call, states: seq<seq<Act>>, ops: seq<Op>)
    requires WfInvoke(acts, argc, taken, call) && IsRun(states, ops) && states[0] == Invoke(acts, argc, taken, call)
    requires forall i | 0 <= i < |states| :: Open(states[i], |acts|, 0)
    ensures var last := states[|ops|]; |last| > |acts| && last[..|acts|] == WithTop(acts, Caller(acts, argc, taken, call))
  {
    RunKeepsBelow(states, ops, |acts|, 0);
    hide Open, IsRun, Exec, Wf, WfAct;
    assert states[0][..|acts|] == WithTop(acts, Caller(acts, argc, taken, call));
  }

  /** The caller's innermost block, where it resumes and what it holds during the call. */
  lemma CallerInner(acts: seq<Act>, argc: nat, taken: nat, call: Call)
    requires WfInvoke(acts, argc, taken, call)
    ensures var a, c := Top(acts), Caller(acts, argc, taken, call);
            && |c.segs| == |a.segs| && Inner(c).catch == Inner(a).catch && c.segs[..|c.segs| - 1] == a.segs[..|a.segs| - 1]
            && Inner(c).vals == Vals(acts)[..|Vals(acts)| - argc - taken] + (if call.direct then call.values else [])
  {
  }

  /** Over any run of a call, an exception out of it resumes in the caller's innermost block
      exactly if that is armed and nothing above it is in the way. */
  lemma RaiseToCaller(acts: seq<Act>, argc: nat, taken: nat, call: Call, states: seq<seq<Act>>, ops: seq<Op>, exc: Obj)
    requires WfInvoke(acts, argc, taken, call) && IsRun(states, ops) && states[0] == Invoke(acts, argc, taken, call)
    requires (forall i | 0 <= i < |states| :: Open(states[i], |acts|, 0)) && Wf(states[|ops|])
    ensures ToCaller(acts, Raise(states[|ops|], exc)) <==>
      && |Top(acts).segs| > 1 && Inner(Top(acts)).catch != 0
      && Passed(states[|ops|], |acts| - 1) && NoNative(states[|ops|], |acts| - 1)
  {
    var last, n := states[|ops|], |acts| - 1;
    CallerKept(acts, argc, taken, call, states, ops);
    CallerInner(acts, argc, taken, call);
    assert last[n] == last[..|acts|][n] == Caller(acts, argc, taken, call);
    hide IsRun, Open, Caller, WfInvoke, Invoke, Raise, SameBelow, Resumed, Passed, NoNative;
    if ToCaller(acts, Raise(last, exc)) {
      RaiseResumes(last, exc);
    }
    if |Top(acts).segs| > 1 && Inner(Top(acts)).catch != 0 && Passed(last, n) && NoNative(last, n) {
      RaiseReaches(last, n, exc);
    }
  }

  /** The exception was caught by the innermost block the caller had. */
  ghost predicate ToCaller(acts: seq<Act>, out: Outcome)
    requires Wf(acts)
  {
    out.Running? && Wf(out.acts) && |out.acts| == |acts| && |Top(out.acts).segs| == |Top(acts).segs|
  }

  /** What an exception out of a call leaves on the caller's stack, whatever the call did
      until then: an exception does not drop what a `return` would have dropped.  Where
      arguments are handed over, the callee (and the base) stay under the exception until
      the block is left. */
  lemma RaiseOutOfCall(acts: seq<Act>, argc: nat, taken: nat, call: Call, states: seq<seq<Act>>, ops: seq<Op>, exc: Obj)
    requires WfInvoke(acts, argc, taken, call) && IsRun(states, ops) && states[0] == Invoke(acts, argc, taken, call)
    requires (forall i | 0 <= i < |states| :: Open(states[i], |acts|, 0)) && Wf(states[|ops|])
    requires ToCaller(acts, Raise(states[|ops|], exc))
    ensures var r := Raise(states[|ops|], exc).acts;
            && r[..|r| - 1] == acts[..|acts| - 1] && Top(r).ip == Inner(Top(acts)).catch
            && Top(r).segs[..|Top(r).segs| - 1] == Top(acts).segs[..|Top(acts).segs| - 1]
            && Vals(r) == Vals(acts)[..|Vals(acts)| - argc - taken] + (if call.direct then call.values else []) + [exc]
  {
    var last, n := states[|ops|], |acts| - 1;
    CallerKept(acts, argc, taken, call, states, ops);
    CallerInner(acts, argc, taken, call);
    assert last[n] == last[..|acts|][n] == Caller(acts, argc, taken, call);
    assert last[..n] == last[..|acts|][..n] == acts[..n];
    hide IsRun, Open, Caller, WfInvoke, Invoke, Raise, Passed, NoNative;
    RaiseResumes(last, exc);
  }
}
