/** What the single opcodes do, in terms of what an instruction can see: the values of the
    current block, how many blocks there are, where an exception would resume. */
module StackLaws {
  import opened StackSpec

  // ---------------------------------------------------------------------------
  // Returning

  /** Over any run of a call, a `return` hands the caller the value on top of the callee's
      current block, or none if that is empty, in place of callee and arguments. */
  lemma ReturnGives(acts: seq<Act>, argc: nat, taken: nat, call: Call, states: seq<seq<Act>>, ops: seq<Op>, none: Obj)
    requires WfInvoke(acts, argc, taken, call) && IsRun(states, ops) && states[0] == Invoke(acts, argc, taken, call)
    requires (forall i | 0 <= i < |states| :: Open(states[i], |acts|, 0))
    requires |states[|ops|]| == |acts| + 1 && Wf(states[|ops|])
    ensures Exec(states[|ops|], OpReturn(none)).Running?
    ensures var last, r := states[|ops|], Exec(states[|ops|], OpReturn(none)).acts;
            && |r| == |acts| && r[..|r| - 1] == acts[..|acts| - 1] && Top(r).ip == call.ret
            && Top(r).segs[..|Top(r).segs| - 1] == Top(acts).segs[..|Top(acts).segs| - 1]
            && Vals(r) == Vals(acts)[..|Vals(acts)| - argc - taken]
                          + [if Vals(last) == [] then none else Vals(last)[|Vals(last)| - 1]]
  {
    assert |states| == |ops| + 1;
    var last := states[|ops|];
    ReturnIs(last, none);
    hide IsRun, Open, Invoke, WfInvoke, Return, Exec, Wf;
    CallReplaces(acts, argc, taken, call, states, ops, if Vals(last) == [] then none else Vals(last)[|Vals(last)| - 1]);
  }

  lemma ReturnIs(acts: seq<Act>, none: Obj)
    requires Wf(acts)
    ensures Exec(acts, OpReturn(none)) == Return(acts, if Vals(acts) == [] then none else Vals(acts)[|Vals(acts)| - 1])
  {
    hide Return, Wf;
  }

  /** And if the innermost activation was entered from native code, that gets control back
      and finds its own values, blocks and callers as it left them. */
  lemma ReturnLeaves(acts: seq<Act>, ctx: nat, entry: nat, states: seq<seq<Act>>, ops: seq<Op>, none: Obj)
    requires Wf(acts) && Top(acts).ip == 0 && IsRun(states, ops) && states[0] == Enter(acts, ctx, entry)
    requires (forall i | 0 <= i < |states| :: Open(states[i], |acts|, 0))
    requires |states[|ops|]| == |acts| + 1 && Wf(states[|ops|])
    ensures Exec(states[|ops|], OpReturn(none)) == Left(acts)
  {
    var n, last := |acts|, states[|ops|];
    RunKeepsBelow(states, ops, n, 0);
    hide IsRun, Open, Wf, WfAct;
    assert last[..n] == states[0][..n] == acts;
    assert last[n].dump == states[0][n].dump == 0;
    NothingDropped(last);
    SameVals(Top(acts));
  }

  lemma NothingDropped(acts: seq<Act>)
    requires Wf(acts) && |acts| >= 2 && Top(acts).dump == 0
    ensures Kept(acts) == Inner(acts[|acts| - 2]).vals
  {
  }

  lemma SameVals(a: Act)
    requires WfAct(a)
    ensures WithVals(a, Inner(a).vals) == a
  {
    assert a.segs == a.segs[..|a.segs| - 1] + [Inner(a)];
  }

  // ---------------------------------------------------------------------------
  // Calling

  /** The callee starts at its entry in its own scope, with the arguments if they are handed
      over and without values otherwise; the caller waits behind the call. */
  lemma CalleeFinds(acts: seq<Act>, argc: nat, taken: nat, call: Call)
    requires WfInvoke(acts, argc, taken, call)
    ensures Exec(acts, OpInvoke(argc, taken, call)).Running?
    ensures var r := Exec(acts, OpInvoke(argc, taken, call)).acts;
            && |r| == |acts| + 1 && Top(r).ctx == call.ctx && Top(r).ip == call.entry && |Top(r).segs| == 1
            && Vals(r) == (if call.direct then Vals(acts)[|Vals(acts)| - argc..] else [])
            && r[..|r| - 2] == acts[..|acts| - 1] && r[|r| - 2].ip == call.ret && r[|r| - 2].ctx == Top(acts).ctx
  {
    assert WithTop(acts, Caller(acts, argc, taken, call))[..|acts| - 1] == acts[..|acts| - 1];
  }

  lemma EnteredFinds(acts: seq<Act>, ctx: nat, entry: nat)
    requires Wf(acts)
    ensures Exec(acts, OpEnter(ctx, entry)).Running?
    ensures var r := Exec(acts, OpEnter(ctx, entry)).acts;
            && |r| == |acts| + 1 && r[..|acts|] == acts && Top(r).ctx == ctx && Top(r).ip == entry
            && |Top(r).segs| == 1 && Vals(r) == []
  {
  }

  // ---------------------------------------------------------------------------
  // Values and blocks

  /** What is pushed is what is popped. */
  lemma PushPop(acts: seq<Act>, v: Obj)
    requires Wf(acts)
    ensures Exec(acts, OpPush(v)).Running?
    ensures var r := Exec(acts, OpPush(v)).acts;
            Vals(r)[|Vals(r)| - 1] == v && Exec(r, OpPop) == Running(acts)
  {
    var r := PushVal(acts, v);
    SameVals(Top(acts));
    assert Vals(r)[..|Vals(r)| - 1] == Vals(acts);
    assert Top(PopVal(r)) == Top(acts);
    assert acts == acts[..|acts| - 1] + [Top(acts)];
  }

  /** A new block has the values from the `n`th on, the one around it those before it. */
  lemma BlockTakes(acts: seq<Act>, n: nat)
    requires Wf(acts) && n <= |Vals(acts)|
    ensures Exec(acts, OpPushBlockAt(n)).Running?
    ensures var r := Exec(acts, OpPushBlockAt(n)).acts;
            && |Top(r).segs| == |Top(acts).segs| + 1 && Vals(r) == Vals(acts)[n..] && Inner(Top(r)).catch == 0
            && Top(r).segs[|Top(acts).segs| - 1] == Seg(Inner(Top(acts)).catch, Vals(acts)[..n])
            && (n == |Vals(acts)| ==> Exec(acts, OpPushBlock) == Running(r))
            && (n + 1 == |Vals(acts)| ==> Exec(acts, OpPushBlockS1) == Running(r))
  {
  }

  /** As many blocks go as are asked for, but never the outermost one; the others stay. */
  lemma {:induction false} BlocksGo(acts: seq<Act>, n: nat)
    requires Wf(acts)
    ensures Exec(acts, OpIntLoop(n)).Running?
    ensures var r, segs := Exec(acts, OpIntLoop(n)).acts, Top(acts).segs;
            && Top(r).segs == segs[..if n < |segs| then |segs| - n else 1]
            && |r| == |acts| && r[..|r| - 1] == acts[..|acts| - 1] && Top(r) == Top(acts).(segs := Top(r).segs)
    decreases n
  {
    if n > 0 {
      hide PopBlock, WfCall;
      OneBlockGoes(acts);
      BlocksGo(PopBlock(acts), n - 1);
      CutOne(Top(acts).segs, n);
    } else {
      assert Top(acts).segs[..|Top(acts).segs|] == Top(acts).segs;
    }
  }

  lemma CutOne(segs: seq<Seg>, n: nat)
    requires segs != [] && n > 0
    ensures var next := segs[..if |segs| > 1 then |segs| - 1 else 1];
            next[..if n - 1 < |next| then |next| - (n - 1) else 1] == segs[..if n < |segs| then |segs| - n else 1]
  {
  }

  lemma OneBlockGoes(acts: seq<Act>)
    requires Wf(acts)
    ensures var r, segs := PopBlock(acts), Top(acts).segs;
            && Top(r).segs == segs[..if |segs| > 1 then |segs| - 1 else 1]
            && |r| == |acts| && r[..|r| - 1] == acts[..|acts| - 1] && Top(r) == Top(acts).(segs := Top(r).segs)
  {
  }

  /** Leaving a block with a value puts that on top of the block around it; in the outermost
      block nothing happens. */
  lemma ValueStays(acts: seq<Act>)
    requires Wf(acts) && Vals(acts) != []
    ensures Exec(acts, OpPopBlockS1).Running?
    ensures var r, segs, v := Exec(acts, OpPopBlockS1).acts, Top(acts).segs, Vals(acts)[|Vals(acts)| - 1];
            && (|segs| == 1 ==> r == acts)
            && (|segs| > 1 ==> Top(r).segs[..|segs| - 2] == segs[..|segs| - 2] && |Top(r).segs| == |segs| - 1
                               && Inner(Top(r)) == Seg(segs[|segs| - 2].catch, segs[|segs| - 2].vals + [v]))
            && |r| == |acts| && r[..|r| - 1] == acts[..|acts| - 1] && Top(r) == Top(acts).(segs := Top(r).segs)
  {
    var mid, v := PopVal(acts), Vals(acts)[|Vals(acts)| - 1];
    OneBlockGoes(mid);
    if |Top(acts).segs| == 1 {
      assert Vals(acts)[..|Vals(acts)| - 1] + [v] == Vals(acts);
      SameVals(Top(acts));
      assert Top(PushVal(mid, v)) == Top(acts);
      assert acts == acts[..|acts| - 1] + [Top(acts)];
    }
  }

  // ---------------------------------------------------------------------------
  // Arming

  /** An armed block is where the next exception resumes, with its values and the exception
      on top. */
  lemma ArmedCatches(acts: seq<Act>, catch: nat, exc: Obj)
    requires Wf(acts) && |Top(acts).segs| > 1 && catch != 0
    ensures Exec(acts, OpSetCatch(catch)).Running?
    ensures var out := Raise(Exec(acts, OpSetCatch(catch)).acts, exc);
            && out.Running? && Top(out.acts).ip == catch && |Top(out.acts).segs| == |Top(acts).segs|
            && Vals(out.acts) == Vals(acts) + [exc]
            && |out.acts| == |acts| && out.acts[..|acts| - 1] == acts[..|acts| - 1]
            && Top(out.acts).segs[..|Top(acts).segs| - 1] == Top(acts).segs[..|Top(acts).segs| - 1]
  {
  }

  /** A disarmed block is passed over: what is raised in it is raised where it ends. */
  lemma DisarmedPasses(acts: seq<Act>, exc: Obj)
    requires Wf(acts) && |Top(acts).segs| > 1
    ensures Exec(acts, OpSetCatch(0)).Running?
    ensures Raise(Exec(acts, OpSetCatch(0)).acts, exc) == Raise(PopBlock(acts), exc)
  {
    DisarmedTop(acts);
    hide SetCatch, PopBlock, Raise, Wf, Armed;
    SameRaise(SetCatch(acts, 0), PopBlock(acts), exc);
  }

  /** As far as an exception can tell, disarming a block leaves the ones around it. */
  lemma DisarmedTop(acts: seq<Act>)
    requires Wf(acts) && |Top(acts).segs| > 1
    ensures var a, b := SetCatch(acts, 0), PopBlock(acts);
            && Wf(a) && Wf(b) && |a| == |b| && a[..|a| - 1] == b[..|b| - 1] && Top(a).(segs := Top(b).segs) == Top(b)
            && |Top(b).segs| < |Top(a).segs| && Top(a).segs[..|Top(b).segs|] == Top(b).segs && Armed(Top(a).segs) == Armed(Top(b).segs)
  {
    var a, b, segs := SetCatch(acts, 0), PopBlock(acts), Top(acts).segs;
    assert Top(a).segs[..|segs| - 1] == segs[..|segs| - 1] == Top(b).segs;
    assert a[..|a| - 1] == acts[..|acts| - 1] == b[..|b| - 1];
  }

  lemma SameRaise(a: seq<Act>, b: seq<Act>, exc: Obj)
    requires Wf(a) && Wf(b) && |a| == |b| && a[..|a| - 1] == b[..|b| - 1] && Top(a).(segs := Top(b).segs) == Top(b)
    requires |Top(b).segs| < |Top(a).segs| && Top(a).segs[..|Top(b).segs|] == Top(b).segs && Armed(Top(a).segs) == Armed(Top(b).segs)
    ensures Raise(a, exc) == Raise(b, exc)
  {
    var k := Armed(Top(b).segs);
    if k != 0 {
      hide Wf, Armed, Raise;
      assert Top(a).segs[..k] == Top(b).segs[..k];
      assert Resumed(Top(a), k, exc) == Resumed(Top(b), k, exc);
      RaiseHere(a, exc);
      RaiseHere(b, exc);
    } else if |a| > 1 {
      assert a[|a| - 2] == a[..|a| - 1][|a| - 2] && b[|b| - 2] == b[..|b| - 1][|b| - 2];
      hide Wf, Armed, Resumed;
    }
  }

  lemma RaiseHere(acts: seq<Act>, exc: Obj)
    requires Wf(acts) && Armed(Top(acts).segs) != 0
    ensures Raise(acts, exc) == Running(acts[..|acts| - 1] + [Resumed(Top(acts), Armed(Top(acts).segs), exc)])
  {
    hide Wf, Armed, Resumed;
  }
}
