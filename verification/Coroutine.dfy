/** The stack of a coroutine as it is stored: one growing array of values, a block stack
    and a frame stack holding addresses into it.  Every method is proved against the
    picture of `StackSpec`. */
module Coroutine {
  import opened StackSpec

  datatype Block = Block(catc: nat, count: nat)

  /** The header frames and the running activation share; `bp` and `rbp` are addresses. */
  datatype Header = Header(ctx: nat, bp: nat, rbp: nat, ip: nat, dump: nat, bcur: nat)

  datatype Exit = ToHandler | ToNative | Killed

  // ---------------------------------------------------------------------------
  // The picture, flattened

  ghost function SegVals(segs: seq<Seg>): (r: seq<Obj>) {
    if segs == [] then [] else SegVals(segs[..|segs| - 1]) + segs[|segs| - 1].vals
  }

  ghost function ActVals(acts: seq<Act>): (r: seq<Obj>) {
    if acts == [] then [] else ActVals(acts[..|acts| - 1]) + SegVals(acts[|acts| - 1].segs)
  }

  /** The entries one activation has on the block stack: where each of its blocks resumes
      and how many values the block around it has. */
  ghost function SegBlocks(segs: seq<Seg>): (r: seq<Block>)
    ensures |r| == if segs == [] then 0 else |segs| - 1
  {
    if |segs| <= 1 then []
    else SegBlocks(segs[..|segs| - 1]) + [Block(segs[|segs| - 1].catch, |segs[|segs| - 2].vals|)]
  }

  ghost function ActBlocks(acts: seq<Act>): (r: seq<Block>) {
    if acts == [] then [] else ActBlocks(acts[..|acts| - 1]) + SegBlocks(acts[|acts| - 1].segs)
  }

  /** `h` describes activation `i`. */
  ghost predicate Describes(h: Header, acts: seq<Act>, i: nat, bottom: nat) {
    && i < |acts| && acts[i].segs != []
    && h.ctx == acts[i].ctx && h.ip == acts[i].ip && h.dump == acts[i].dump
    && h.rbp == bottom + |ActVals(acts[..i])|
    && h.bp == h.rbp + |SegVals(acts[i].segs[..|acts[i].segs| - 1])|
    && h.bcur == |ActBlocks(acts[..i])|
  }

  /** The stored values, blocks and frames are those of `acts`. */
  ghost predicate Stored(vals: seq<Obj>, bstack: seq<Block>, frames: seq<Header>, rt: Header, acts: seq<Act>, bottom: nat) {
    && Wf(acts) && |acts| == |frames| + 1
    && (forall i | 0 <= i < |frames| :: Describes(frames[i], acts, i, bottom))
    && Describes(rt, acts, |frames|, bottom)
    && vals == ActVals(acts) && bstack == ActBlocks(acts)
  }

  // ---------------------------------------------------------------------------
  // How the picture and its flattening change together

  /** What lies below the current block. */
  ghost function Base(acts: seq<Act>): seq<Obj>
    requires Wf(acts)
  {
    ActVals(acts[..|acts| - 1]) + SegVals(Top(acts).segs[..|Top(acts).segs| - 1])
  }

  lemma FlatTop(acts: seq<Act>)
    requires Wf(acts)
    ensures ActVals(acts) == Base(acts) + Vals(acts)
  {
  }

  /** Other values in the current block. */
  lemma FlatVals(acts: seq<Act>, vals: seq<Obj>)
    requires Wf(acts)
    ensures var r := WithTop(acts, WithVals(Top(acts), vals));
            ActVals(r) == Base(acts) + vals && ActBlocks(r) == ActBlocks(acts) && Base(r) == Base(acts)
  {
    var a := WithVals(Top(acts), vals);
    var r := WithTop(acts, a);
    assert a.segs[..|a.segs| - 1] == Top(acts).segs[..|a.segs| - 1];
    SameBlocks(Top(acts).segs, a.segs);
  }

  lemma SameBlocks(s: seq<Seg>, t: seq<Seg>)
    requires |s| == |t| && |s| > 0 && s[..|s| - 1] == t[..|t| - 1] && s[|s| - 1].catch == t[|t| - 1].catch
    ensures SegBlocks(s) == SegBlocks(t)
  {
    if |s| > 1 {
      assert s[|s| - 2] == s[..|s| - 1][|s| - 2] == t[..|t| - 1][|s| - 2] == t[|t| - 2];
    }
  }

  /** The frames below do not notice what happens on top. */
  lemma SameFrames(frames: seq<Header>, acts: seq<Act>, acts': seq<Act>, bottom: nat)
    requires |frames| < |acts| && |frames| < |acts'| && acts'[..|frames|] == acts[..|frames|]
    requires forall i | 0 <= i < |frames| :: Describes(frames[i], acts, i, bottom)
    ensures forall i | 0 <= i < |frames| :: Describes(frames[i], acts', i, bottom)
  {
    forall i | 0 <= i < |frames| ensures Describes(frames[i], acts', i, bottom) {
      assert acts'[i] == acts'[..|frames|][i] == acts[i];
      assert acts'[..i] == acts'[..|frames|][..i] == acts[..|frames|][..i] == acts[..i];
    }
  }

  ghost function Shifted(h: Header, from: nat, to: nat): Header
    requires h.bp >= from && h.rbp >= from
  {
    h.(bp := to + (h.bp - from), rbp := to + (h.rbp - from))
  }

  lemma StoredAbove(vals: seq<Obj>, bstack: seq<Block>, frames: seq<Header>, rt: Header, acts: seq<Act>, bottom: nat)
    requires Stored(vals, bstack, frames, rt, acts, bottom)
    ensures forall k | 0 <= k < |frames| :: frames[k].bp >= bottom && frames[k].rbp >= bottom
    ensures rt.bp >= bottom && rt.rbp >= bottom
  {
  }

  lemma StoredShifted(
    vals: seq<Obj>, bstack: seq<Block>, frames: seq<Header>, rt: Header, acts: seq<Act>, bottom: nat, frames': seq<Header>, to: nat)
    requires Stored(vals, bstack, frames, rt, acts, bottom)
    requires forall k | 0 <= k < |frames| :: frames[k].bp >= bottom && frames[k].rbp >= bottom
    requires rt.bp >= bottom && rt.rbp >= bottom
    requires |frames'| == |frames| && forall k | 0 <= k < |frames| :: frames'[k] == Shifted(frames[k], bottom, to)
    ensures Stored(vals, bstack, frames', Shifted(rt, bottom, to), acts, to)
  {
    forall i | 0 <= i < |frames| ensures Describes(frames'[i], acts, i, to) {
      assert Describes(frames[i], acts, i, bottom);
    }
  }

  /** The current block may get other values. */
  lemma StoredVals(
    vals: seq<Obj>, bstack: seq<Block>, frames: seq<Header>, rt: Header, acts: seq<Act>, bottom: nat, top: seq<Obj>)
    requires Stored(vals, bstack, frames, rt, acts, bottom)
    ensures bottom <= rt.rbp <= rt.bp <= bottom + |vals| && vals[rt.bp - bottom..] == Vals(acts)
    ensures Stored(vals[..rt.bp - bottom] + top, bstack, frames, rt, WithTop(acts, WithVals(Top(acts), top)), bottom)
  {
    FlatTop(acts);
    FlatVals(acts, top);
    var acts' := WithTop(acts, WithVals(Top(acts), top));
    SameFrames(frames, acts, acts', bottom);
    assert acts'[..|frames|] == acts[..|frames|];
    assert Top(acts').segs[..|Top(acts').segs| - 1] == Top(acts).segs[..|Top(acts).segs| - 1];
  }

  lemma StoredPushBlock(
    vals: seq<Obj>, bstack: seq<Block>, frames: seq<Header>, rt: Header, acts: seq<Act>, bottom: nat, n: nat)
    requires Stored(vals, bstack, frames, rt, acts, bottom) && n <= |Vals(acts)|
    ensures Stored(vals, bstack + [Block(0, n)], frames, rt.(bp := rt.bp + n), PushBlockAt(acts, n), bottom)
  {
    var acts' := PushBlockAt(acts, n);
    var outer := WithVals(Top(acts), Vals(acts)[..n]);
    SameFrames(frames, acts, acts', bottom);
    FlatTop(acts);
    FlatVals(acts, Vals(acts)[..n]);
    assert acts'[..|frames|] == acts[..|frames|];
    assert Top(acts').segs[..|outer.segs|] == outer.segs;
    assert outer.segs[..|outer.segs| - 1] == Top(acts).segs[..|outer.segs| - 1];
    SameBlocks(Top(acts).segs, outer.segs);
    assert Vals(acts) == Vals(acts)[..n] + Vals(acts)[n..];
    assert ActVals(acts') == Base(acts) + Vals(acts)[..n] + Vals(acts)[n..];
  }

  /** Is there a block to leave? */
  lemma StoredBlocks(vals: seq<Obj>, bstack: seq<Block>, frames: seq<Header>, rt: Header, acts: seq<Act>, bottom: nat)
    requires Stored(vals, bstack, frames, rt, acts, bottom)
    ensures |bstack| == rt.bcur + |Top(acts).segs| - 1
    ensures |Top(acts).segs| > 1 ==>
      var a := Top(acts); bstack[|bstack| - 1] == Block(Inner(a).catch, |a.segs[|a.segs| - 2].vals|)
  {
  }

  lemma StoredPopBlock(vals: seq<Obj>, bstack: seq<Block>, frames: seq<Header>, rt: Header, acts: seq<Act>, bottom: nat)
    requires Stored(vals, bstack, frames, rt, acts, bottom) && |Top(acts).segs| > 1 && |bstack| > 0
    ensures bottom <= rt.bp <= bottom + |vals| && bstack[|bstack| - 1].count <= rt.bp
    ensures Stored(vals[..rt.bp - bottom], bstack[..|bstack| - 1], frames,
              rt.(bp := rt.bp - bstack[|bstack| - 1].count), PopBlock(acts), bottom)
  {
    var acts' := PopBlock(acts);
    var segs := Top(acts).segs;
    var segs' := segs[..|segs| - 1];
    StoredBlocks(vals, bstack, frames, rt, acts, bottom);
    SameFrames(frames, acts, acts', bottom);
    FlatTop(acts);
    assert acts'[..|frames|] == acts[..|frames|];
    assert SegVals(segs') == SegVals(segs'[..|segs'| - 1]) + segs[|segs| - 2].vals;
    assert ActBlocks(acts) == ActBlocks(acts') + [bstack[|bstack| - 1]];
  }

  lemma StoredCatch(vals: seq<Obj>, bstack: seq<Block>, frames: seq<Header>, rt: Header, acts: seq<Act>, bottom: nat, catch: nat)
    requires Stored(vals, bstack, frames, rt, acts, bottom) && |Top(acts).segs| > 1 && |bstack| > 0
    ensures Stored(vals, bstack[|bstack| - 1 := bstack[|bstack| - 1].(catc := catch)], frames, rt, SetCatch(acts, catch), bottom)
  {
    var acts' := SetCatch(acts, catch);
    var segs, segs' := Top(acts).segs, Top(SetCatch(acts, catch)).segs;
    StoredBlocks(vals, bstack, frames, rt, acts, bottom);
    SameFrames(frames, acts, acts', bottom);
    FlatTop(acts);
    assert acts'[..|frames|] == acts[..|frames|];
    assert segs'[..|segs'| - 1] == segs[..|segs| - 1];
    assert segs'[|segs'| - 2] == segs[|segs| - 2];
    assert SegBlocks(segs) == SegBlocks(segs[..|segs| - 1]) + [bstack[|bstack| - 1]];
  }

  lemma StoredEnter(
    vals: seq<Obj>, bstack: seq<Block>, frames: seq<Header>, rt: Header, acts: seq<Act>, bottom: nat, ctx: nat, entry: nat)
    requires Stored(vals, bstack, frames, rt, acts, bottom)
    ensures Stored(vals, bstack, frames + [rt], Header(ctx, bottom + |vals|, bottom + |vals|, entry, 0, |bstack|), Enter(acts, ctx, entry), bottom)
  {
    var acts' := Enter(acts, ctx, entry);
    assert acts'[..|acts|] == acts;
    SameFrames(frames, acts, acts', bottom);
    assert acts'[..|frames|] == acts[..|frames|];
  }

  lemma StoredLeave(vals: seq<Obj>, bstack: seq<Block>, frames: seq<Header>, rt: Header, acts: seq<Act>, bottom: nat)
    requires Stored(vals, bstack, frames, rt, acts, bottom) && |frames| > 0
    ensures bottom <= rt.rbp <= bottom + |vals| && rt.bcur <= |bstack|
    ensures Stored(vals[..rt.rbp - bottom], bstack[..rt.bcur], frames[..|frames| - 1], frames[|frames| - 1], acts[..|acts| - 1], bottom)
  {
    var acts' := acts[..|acts| - 1];
    SameFrames(frames[..|frames| - 1], acts, acts', bottom);
    assert acts'[..|frames| - 1] == acts[..|frames| - 1];
  }

  /** A frame and the one above it: the base pointer is the start plus the sizes of the
      frame's blocks, and the next frame starts beyond it. */
  ghost predicate Nests(bstack: seq<Block>, f: Header, next: Header) {
    f.bcur <= next.bcur <= |bstack| && f.bp == f.rbp + Counts(bstack[f.bcur..next.bcur]) && f.bp <= next.rbp
  }

  ghost predicate AllNest(bstack: seq<Block>, all: seq<Header>) {
    forall i | 0 <= i < |all| - 1 :: Nests(bstack, all[i], all[i + 1])
  }

  /** Every frame's base pointer is its start plus the sizes of its blocks, frames nest,
      and the stack pointer is beyond them. */
  lemma Nested(vals: seq<Obj>, bstack: seq<Block>, frames: seq<Header>, rt: Header, acts: seq<Act>, bottom: nat)
    requires Stored(vals, bstack, frames, rt, acts, bottom)
    ensures rt.bcur <= |bstack| && rt.bp == rt.rbp + Counts(bstack[rt.bcur..]) && rt.bp <= bottom + |vals|
    ensures AllNest(bstack, frames + [rt])
  {
    hide ActBlocks, ActVals, SegVals, SegBlocks, Counts;
    NestedAt(bstack, rt, acts, |frames|, bottom);
    NestedTop(acts, |frames|);
    assert acts[..|frames| + 1] == acts;
    assert bstack[rt.bcur..] == bstack[rt.bcur..|bstack|];
    var all := frames + [rt];
    forall i | 0 <= i < |frames| ensures Nests(bstack, all[i], all[i + 1]) {
      assert Describes(all[i + 1], acts, i + 1, bottom);
      NestedAt(bstack, frames[i], acts, i, bottom);
      NestedTop(acts, i);
    }
  }

  ghost function Counts(blocks: seq<Block>): nat {
    if blocks == [] then 0 else Counts(blocks[..|blocks| - 1]) + blocks[|blocks| - 1].count
  }

  /** A frame's blocks without the last one are those of its segments without the last. */
  lemma SegBlocksFront(segs: seq<Seg>)
    requires |segs| > 1
    ensures var bs := SegBlocks(segs); bs != [] && bs[..|bs| - 1] == SegBlocks(segs[..|segs| - 1])
    ensures SegBlocks(segs)[|segs| - 2].count == |segs[|segs| - 2].vals|
  {
  }

  lemma SegValsFront(segs: seq<Seg>)
    requires segs != []
    ensures |SegVals(segs)| == |SegVals(segs[..|segs| - 1])| + |segs[|segs| - 1].vals|
  {
  }

  lemma {:induction false} SegCounts(segs: seq<Seg>)
    requires segs != []
    ensures Counts(SegBlocks(segs)) == |SegVals(segs[..|segs| - 1])|
  {
    if |segs| > 1 {
      hide SegBlocks, SegVals;
      var front := segs[..|segs| - 1];
      SegCounts(front);
      SegBlocksFront(segs);
      SegValsFront(front);
    }
  }

  lemma {:induction false} BlocksPrefix(acts: seq<Act>, n: nat)
    requires n <= |acts|
    ensures ActBlocks(acts[..n]) <= ActBlocks(acts)
    decreases |acts| - n
  {
    if n < |acts| {
      BlocksPrefix(acts, n + 1);
      assert acts[..n + 1][..n] == acts[..n];
    } else {
      assert acts[..n] == acts;
    }
  }

  lemma {:induction false} NextBlocks(acts: seq<Act>, i: nat)
    requires i < |acts|
    ensures ActBlocks(acts[..i + 1]) == ActBlocks(acts[..i]) + SegBlocks(acts[i].segs)
  {
    assert acts[..i + 1][..i] == acts[..i];
  }

  lemma NestedAt(bstack: seq<Block>, h: Header, acts: seq<Act>, i: nat, bottom: nat)
    requires Wf(acts) && Describes(h, acts, i, bottom) && bstack == ActBlocks(acts)
    ensures var end := |ActBlocks(acts[..i + 1])|;
            h.bcur <= end <= |bstack| && h.bp == h.rbp + Counts(bstack[h.bcur..end])
  {
    hide ActBlocks, SegBlocks, ActVals, SegVals;
    BlocksPrefix(acts, i + 1);
    SegCounts(acts[i].segs);
    NextBlocks(acts, i);
    assert bstack[h.bcur..|ActBlocks(acts[..i + 1])|] == SegBlocks(acts[i].segs);
  }

  lemma NestedTop(acts: seq<Act>, i: nat)
    requires i < |acts| && acts[i].segs != []
    ensures |ActVals(acts[..i])| + |SegVals(acts[i].segs[..|acts[i].segs| - 1])| <= |ActVals(acts[..i + 1])|
  {
    assert acts[..i + 1][..i] == acts[..i];
  }

  lemma StoredTop(vals: seq<Obj>, bstack: seq<Block>, frames: seq<Header>, rt: Header, acts: seq<Act>, bottom: nat)
    requires Stored(vals, bstack, frames, rt, acts, bottom)
    ensures rt.dump == Top(acts).dump && rt.ip == Top(acts).ip && rt.ctx == Top(acts).ctx
  {
  }

  lemma StoredWf(vals: seq<Obj>, bstack: seq<Block>, frames: seq<Header>, rt: Header, acts: seq<Act>, bottom: nat)
    requires Stored(vals, bstack, frames, rt, acts, bottom)
    ensures Wf(acts) && |acts| == |frames| + 1
  {
  }

  /** The activation on top is somewhere else in its code. */
  lemma StoredIp(vals: seq<Obj>, bstack: seq<Block>, frames: seq<Header>, rt: Header, acts: seq<Act>, bottom: nat, ip: nat)
    requires Stored(vals, bstack, frames, rt, acts, bottom)
    ensures Stored(vals, bstack, frames, rt.(ip := ip), WithTop(acts, Top(acts).(ip := ip)), bottom)
  {
    var acts' := WithTop(acts, Top(acts).(ip := ip));
    SameFrames(frames, acts, acts', bottom);
    assert acts'[..|frames|] == acts[..|frames|];
  }

  /** A call: the values below stay where they are. */
  lemma StoredCall(
    vals: seq<Obj>, bstack: seq<Block>, frames: seq<Header>, rt: Header, acts: seq<Act>, bottom: nat,
    ctx: nat, entry: nat, dump: nat, args: seq<Obj>)
    requires Stored(vals, bstack, frames, rt, acts, bottom)
    requires dump <= 2 && dump <= |Vals(acts)| && (Top(acts).ip == 0 ==> dump == 0)
    ensures Stored(vals + args, bstack, frames + [rt], Header(ctx, bottom + |vals|, bottom + |vals|, entry, dump, |bstack|),
              acts + [Act(ctx, entry, dump, [Seg(0, args)])], bottom)
  {
    hide ActVals, ActBlocks, SegVals, SegBlocks;
    var a := Act(ctx, entry, dump, [Seg(0, args)]);
    var acts' := acts + [a];
    Appended(acts, a);
    OneSegment(args);
    assert acts'[..|frames|] == acts[..|frames|];
    SameFrames(frames, acts, acts', bottom);
    assert Describes(rt, acts', |frames|, bottom);
  }

  /** One more activation. */
  lemma Appended(acts: seq<Act>, a: Act)
    ensures (acts + [a])[..|acts|] == acts && ActVals(acts + [a]) == ActVals(acts) + SegVals(a.segs)
    ensures ActBlocks(acts + [a]) == ActBlocks(acts) + SegBlocks(a.segs)
  {
    assert (acts + [a])[..|acts|] == acts;
  }

  lemma OneSegment(vals: seq<Obj>)
    ensures SegVals([Seg(0, vals)]) == vals && SegBlocks([Seg(0, vals)]) == [] && SegVals([Seg(0, vals)][..0]) == []
  {
    var s := [Seg(0, vals)];
    assert s[..0] == [];
    assert SegVals(s) == SegVals(s[..0]) + vals;
  }

  lemma StoredKept(
    vals: seq<Obj>, bstack: seq<Block>, frames: seq<Header>, rt: Header, acts: seq<Act>, bottom: nat, drop: nat, extra: seq<Obj>)
    requires Stored(vals, bstack, frames, rt, acts, bottom) && Wf(acts) && drop <= |Vals(acts)|
    ensures bottom <= rt.bp && rt.bp - bottom + drop <= |vals| && vals[rt.bp - bottom..] == Vals(acts)
    ensures Stored(vals[..|vals| - drop] + extra, bstack, frames, rt,
              WithTop(acts, WithVals(Top(acts), Vals(acts)[..|Vals(acts)| - drop] + extra)), bottom)
  {
    hide Stored, WithVals, WithTop;
    var top := Vals(acts);
    StoredVals(vals, bstack, frames, rt, acts, bottom, top[..|top| - drop] + extra);
    LowParts(vals, rt.bp - bottom, top, drop, extra);
  }

  /** The caller's side of a call. */
  lemma StoredCaller(
    vals: seq<Obj>, bstack: seq<Block>, frames: seq<Header>, rt: Header, acts: seq<Act>, bottom: nat, argc: nat, taken: nat, call: Call)
    requires Stored(vals, bstack, frames, rt, acts, bottom) && WfInvoke(acts, argc, taken, call)
    ensures bottom <= rt.bp && rt.bp - bottom + argc + taken <= |vals| && vals[rt.bp - bottom..] == Vals(acts)
    ensures var low := vals[..|vals| - argc - taken] + (if call.direct then call.values else []);
            Stored(low, bstack, frames, rt.(ip := call.ret), WithTop(acts, Caller(acts, argc, taken, call)), bottom)
  {
    hide Stored, WithVals, WithTop, Caller;
    var extra := if call.direct then call.values else [];
    var kept := Vals(acts)[..|Vals(acts)| - (argc + taken)] + extra;
    StoredKept(vals, bstack, frames, rt, acts, bottom, argc + taken, extra);
    CallerIs(acts, argc, taken, call, kept);
    hide WfInvoke;
    StoredIp(vals[..|vals| - (argc + taken)] + extra, bstack, frames, rt, WithTop(acts, WithVals(Top(acts), kept)), bottom, call.ret);
  }

  lemma LowParts(vals: seq<Obj>, at: nat, top: seq<Obj>, drop: nat, extra: seq<Obj>)
    requires at <= |vals| && vals[at..] == top && drop <= |top|
    ensures |vals| - drop >= 0 && vals[..|vals| - drop] + extra == vals[..at] + (top[..|top| - drop] + extra)
  {
    assert vals == vals[..at] + top;
  }

  lemma DirectCall(acts: seq<Act>, argc: nat, call: Call, callee: Obj)
    requires Wf(acts) && argc < |Vals(acts)| && callee == Vals(acts)[|Vals(acts)| - argc - 1]
    requires call.direct && call.values == [callee] && call.ret != 0
    ensures WfInvoke(acts, argc, 1, call) && [callee] == Vals(acts)[|Vals(acts)| - argc - 1..|Vals(acts)| - argc]
  {
  }

  lemma StoredInvoke(
    vals: seq<Obj>, bstack: seq<Block>, frames: seq<Header>, rt: Header, acts: seq<Act>, bottom: nat, argc: nat, taken: nat, call: Call)
    requires Stored(vals, bstack, frames, rt, acts, bottom) && WfInvoke(acts, argc, taken, call)
    ensures bottom <= rt.bp && rt.bp - bottom + argc + taken <= |vals| && vals[rt.bp - bottom..] == Vals(acts)
    ensures var low := vals[..|vals| - argc - taken] + (if call.direct then call.values else []);
            Stored(low + (if call.direct then vals[|vals| - argc..] else []), bstack, frames + [rt.(ip := call.ret)],
              Header(call.ctx, bottom + |low|, bottom + |low|, call.entry, if call.direct then |call.values| else 0, |bstack|),
              Invoke(acts, argc, taken, call), bottom)
  {
    hide Stored;
    StoredCaller(vals, bstack, frames, rt, acts, bottom, argc, taken, call);
    var low := vals[..|vals| - argc - taken] + (if call.direct then call.values else []);
    var top := Vals(acts);
    assert vals[|vals| - argc..] == top[|top| - argc..];
    var caller := Caller(acts, argc, taken, call);
    hide WithVals, Caller;
    StoredCall(low, bstack, frames, rt.(ip := call.ret), WithTop(acts, caller), bottom, call.ctx, call.entry,
      if call.direct then |call.values| else 0, if call.direct then top[|top| - argc..] else []);
  }

  /** A call that leaves the callee where it is. */
  lemma StoredDirect(
    vals: seq<Obj>, bstack: seq<Block>, frames: seq<Header>, rt: Header, acts: seq<Act>, bottom: nat, argc: nat, call: Call)
    requires Stored(vals, bstack, frames, rt, acts, bottom) && Wf(acts) && argc < |Vals(acts)|
    requires call.direct && call.values == [Vals(acts)[|Vals(acts)| - argc - 1]] && call.ret != 0
    ensures WfInvoke(acts, argc, 1, call) && |vals| > argc
    ensures Stored(vals, bstack, frames + [rt.(ip := call.ret)],
              Header(call.ctx, bottom + |vals| - argc, bottom + |vals| - argc, call.entry, 1, |bstack|), Invoke(acts, argc, 1, call), bottom)
  {
    hide Stored, Invoke, WfInvoke, Wf, Vals;
    DirectCall(acts, argc, call, Vals(acts)[|Vals(acts)| - argc - 1]);
    StoredInvoke(vals, bstack, frames, rt, acts, bottom, argc, 1, call);
    InvokeParts(vals, rt.bp - bottom, Vals(acts), argc, 1, call.values);
  }

  lemma CallerIs(acts: seq<Act>, argc: nat, taken: nat, call: Call, kept: seq<Obj>)
    requires WfInvoke(acts, argc, taken, call)
    requires kept == Vals(acts)[..|Vals(acts)| - argc - taken] + (if call.direct then call.values else [])
    ensures var acts1 := WithTop(acts, WithVals(Top(acts), kept));
            Caller(acts, argc, taken, call) == Top(acts1).(ip := call.ret)
            && WithTop(acts, Caller(acts, argc, taken, call)) == WithTop(acts1, Top(acts1).(ip := call.ret))
  {
  }

  lemma PopValIs(acts: seq<Act>)
    requires Wf(acts) && Vals(acts) != []
    ensures PopVal(acts) == WithTop(acts, WithVals(Top(acts), Vals(acts)[..|Vals(acts)| - 1]))
  {
  }

  lemma PopBlockIs(acts: seq<Act>)
    requires Wf(acts)
    ensures |Top(acts).segs| == 1 ==> PopBlock(acts) == acts
    ensures |Top(acts).segs| >= 1
  {
  }

  /** `acts` without the blocks of its top activation from `j` on. */
  ghost function Cut(acts: seq<Act>, j: nat): (r: seq<Act>)
    requires Wf(acts) && 0 < j <= |Top(acts).segs|
    ensures Wf(r) && Top(r).segs == Top(acts).segs[..j] && r[..|r| - 1] == acts[..|acts| - 1] && |r| == |acts|
  {
    WithTop(acts, Top(acts).(segs := Top(acts).segs[..j]))
  }

  lemma CutAll(acts: seq<Act>)
    requires Wf(acts)
    ensures Cut(acts, |Top(acts).segs|) == acts
  {
    assert Top(acts).segs[..|Top(acts).segs|] == Top(acts).segs;
  }

  lemma CutPop(acts: seq<Act>, j: nat)
    requires Wf(acts) && 0 < j <= |Top(acts).segs|
    ensures PopBlock(Cut(acts, j)) == Cut(acts, if j == 1 then 1 else j - 1)
  {
    if j > 1 {
      assert Top(acts).segs[..j][..j - 1] == Top(acts).segs[..j - 1];
    }
  }

  /** What `PopToCatch` leaves: the armed block, disarmed, or the outermost block. */
  ghost function Caught(acts: seq<Act>): (r: seq<Act>)
    requires Wf(acts)
    ensures Wf(r) && |r| == |acts|
  {
    var k := Armed(Top(acts).segs);
    if k == 0 then Cut(acts, 1) else SetCatch(Cut(acts, k + 1), 0)
  }

  lemma SetCatchSame(acts: seq<Act>)
    requires Wf(acts) && |Top(acts).segs| > 1 && Inner(Top(acts)).catch == 0
    ensures SetCatch(acts, 0) == acts
  {
    var a := Top(acts);
    assert a.segs == a.segs[..|a.segs| - 1] + [Inner(a)];
  }

  lemma ArmedCut(segs: seq<Seg>, j: nat)
    requires 0 < j <= |segs| && (j > 1 ==> segs[j - 1].catch == 0)
    ensures Armed(segs[..j]) == if j > 1 then Armed(segs[..j - 1]) else 0
  {
    if j > 1 {
      assert segs[..j][..j - 1] == segs[..j - 1];
    }
  }

  lemma ArmedHere(segs: seq<Seg>, j: nat)
    requires 1 < j <= |segs| && segs[j - 1].catch != 0
    ensures Armed(segs[..j]) == j - 1
  {
  }

  lemma CaughtAt(acts: seq<Act>, j: nat)
    requires Wf(acts) && 1 < j <= |Top(acts).segs| && Top(acts).segs[j - 1].catch != 0
    requires Armed(Top(acts).segs) == Armed(Top(acts).segs[..j])
    ensures Caught(acts) == SetCatch(Cut(acts, j), 0) && Armed(Top(acts).segs) == j - 1
  {
    ArmedHere(Top(acts).segs, j);
    hide Armed, Cut, SetCatch;
  }

  lemma CaughtNone(acts: seq<Act>)
    requires Wf(acts) && Armed(Top(acts).segs) == Armed(Top(acts).segs[..1])
    ensures Caught(acts) == Cut(acts, 1) && Armed(Top(acts).segs) == 0
  {
  }

  /** The block on top is not armed: on to the one around it. */
  lemma NotHere(acts: seq<Act>, j: nat)
    requires Wf(acts) && 0 < j <= |Top(acts).segs| && (j > 1 ==> Top(acts).segs[j - 1].catch == 0)
    ensures var i := if j == 1 then 1 else j - 1;
            PopBlock(Cut(acts, j)) == Cut(acts, i) && Armed(Top(acts).segs[..j]) == Armed(Top(acts).segs[..i])
    ensures j > 1 ==> |Top(Cut(acts, j)).segs| > 1 && SetCatch(Cut(acts, j), 0) == Cut(acts, j)
  {
    ArmedCut(Top(acts).segs, j);
    CutPop(acts, j);
    hide Armed, PopBlock;
    if j > 1 {
      SetCatchSame(Cut(acts, j));
    }
  }

  lemma CutInner(acts: seq<Act>, j: nat)
    requires Wf(acts) && 0 < j <= |Top(acts).segs|
    ensures Inner(Top(Cut(acts, j))) == Top(acts).segs[j - 1] && |Top(Cut(acts, j)).segs| == j && (j == 1 ==> Top(acts).segs[0].catch == 0)
  {
  }

  lemma CaughtArmed(acts: seq<Act>)
    requires Wf(acts) && Armed(Top(acts).segs) != 0
    ensures var k := Armed(Top(acts).segs);
            && Top(Caught(acts)) == Top(acts).(segs := Top(acts).segs[..k] + [Seg(0, Top(acts).segs[k].vals)])
            && Caught(acts)[..|Caught(acts)| - 1] == acts[..|acts| - 1]
  {
    var k := Armed(Top(acts).segs);
    assert Top(acts).segs[..k + 1][..k] == Top(acts).segs[..k];
  }

  /** An exception in terms of what `PopToCatch` does to the top activation. */
  lemma RaiseCaught(acts: seq<Act>, exc: Obj)
    requires Wf(acts) && Armed(Top(acts).segs) != 0
    ensures var k := Armed(Top(acts).segs);
            Raise(acts, exc) == Running(PushVal(WithTop(Caught(acts), Top(Caught(acts)).(ip := Top(acts).segs[k].catch)), exc))
  {
    var k := Armed(Top(acts).segs);
    var a := Top(acts);
    CaughtArmed(acts);
    var c := Caught(acts);
    hide Caught;
    var d := WithTop(c, Top(c).(ip := a.segs[k].catch));
    assert Top(d).segs[..k] == a.segs[..k];
    assert Top(PushVal(d, exc)) == Resumed(a, k, exc);
  }

  lemma RaiseUncaught(acts: seq<Act>, exc: Obj)
    requires Wf(acts) && Armed(Top(acts).segs) == 0
    ensures |acts| == 1 ==> Raise(acts, exc) == Over
    ensures |acts| > 1 ==>
      var below := Caught(acts)[..|Caught(acts)| - 1];
      Wf(below) && Raise(acts, exc) == if Top(below).ip == 0 then Left(below) else Raise(below, exc)
  {
    assert Caught(acts)[..|Caught(acts)| - 1] == acts[..|acts| - 1];
  }

  lemma {:induction false} CountsFront(blocks: seq<Block>)
    requires blocks != []
    ensures Counts(blocks) == blocks[0].count + Counts(blocks[1..])
  {
    if |blocks| > 1 {
      CountsFront(blocks[..|blocks| - 1]);
      assert blocks[..|blocks| - 1][1..] == blocks[1..][..|blocks| - 2];
    } else {
      assert blocks[..0] == blocks[1..] == [];
    }
  }

  /** Where the `n`th block around the current one ends. */
  lemma {:induction false} SegEnd(segs: seq<Seg>, n: nat)
    requires 0 < n < |segs|
    ensures var blocks := SegBlocks(segs);
            |SegVals(segs[..|segs| - n])| == |SegVals(segs[..|segs| - 1])| - Counts(blocks[|blocks| - (n - 1)..])
    decreases n
  {
    var blocks := SegBlocks(segs);
    if n > 1 {
      SegEnd(segs, n - 1);
      var m := |segs| - n;
      BlockAt(segs, m);
      CountsFront(blocks[|blocks| - (n - 1)..]);
      assert blocks[|blocks| - (n - 1)..][1..] == blocks[|blocks| - (n - 2)..];
      assert segs[..m + 1][..m] == segs[..m];
    } else {
      assert blocks[|blocks|..] == [];
    }
  }

  lemma {:induction false} BlockAt(segs: seq<Seg>, i: nat)
    requires i + 1 < |segs|
    ensures SegBlocks(segs)[i] == Block(segs[i + 1].catch, |segs[i].vals|)
  {
    if i + 2 < |segs| {
      BlockAt(segs[..|segs| - 1], i);
    }
  }

  /** What belongs to the activation on top. */
  lemma StoredParts(vals: seq<Obj>, bstack: seq<Block>, frames: seq<Header>, rt: Header, acts: seq<Act>, bottom: nat)
    requires Stored(vals, bstack, frames, rt, acts, bottom)
    ensures |acts| > 0 && Top(acts).segs != []
    ensures var segs, below := Top(acts).segs, ActVals(acts[..|acts| - 1]);
            && vals == below + SegVals(segs) && rt.bp == bottom + |below| + |SegVals(segs[..|segs| - 1])|
            && bstack == ActBlocks(acts[..|acts| - 1]) + SegBlocks(segs)
  {
    assert acts[..|frames|] == acts[..|acts| - 1];
    hide SegVals, SegBlocks, Wf;
  }

  lemma LastOf<T>(a: seq<T>, b: seq<T>, n: nat)
    requires n <= |b|
    ensures (a + b)[|a + b| - n..] == b[|b| - n..]
  {
  }

  /** The last value of a part, seen from the whole. */
  lemma EndAt(low: seq<Obj>, all: seq<Obj>, front: seq<Obj>, part: seq<Obj>)
    requires front + part <= all && part != []
    ensures |low| + |front + part| <= |low + all| && (low + all)[|low| + |front + part| - 1] == part[|part| - 1]
  {
    assert all[|front + part| - 1] == (front + part)[|front + part| - 1];
  }

  lemma BlockEnd(vals: seq<Obj>, bstack: seq<Block>, frames: seq<Header>, rt: Header, acts: seq<Act>, bottom: nat, n: nat)
    requires Stored(vals, bstack, frames, rt, acts, bottom) && 0 < n < |Top(acts).segs| && n - 1 <= |bstack|
    requires var segs := Top(acts).segs; segs[|segs| - 1 - n].vals != []
    ensures var at, top := rt.bp - Counts(bstack[|bstack| - (n - 1)..]) - 1 - bottom, Top(acts).segs[|Top(acts).segs| - 1 - n].vals;
            0 <= at < |vals| && vals[at] == top[|top| - 1]
  {
    hide Stored, ActVals, ActBlocks, SegVals, SegBlocks, Counts, Wf;
    StoredParts(vals, bstack, frames, rt, acts, bottom);
    var segs := Top(acts).segs;
    var m := |segs| - n;
    SegEnd(segs, n);
    LastOf(ActBlocks(acts[..|acts| - 1]), SegBlocks(segs), n - 1);
    SegPrefix(segs, m);
    SegLast(segs, m);
    EndAt(ActVals(acts[..|acts| - 1]), SegVals(segs), SegVals(segs[..m - 1]), segs[m - 1].vals);
  }

  lemma SegLast(segs: seq<Seg>, m: nat)
    requires 0 < m <= |segs|
    ensures SegVals(segs[..m]) == SegVals(segs[..m - 1]) + segs[m - 1].vals
  {
    assert segs[..m][..m - 1] == segs[..m - 1];
  }

  lemma {:induction false} SegPrefix(segs: seq<Seg>, m: nat)
    requires m <= |segs|
    ensures SegVals(segs[..m]) <= SegVals(segs)
    decreases |segs| - m
  {
    if m < |segs| {
      SegPrefix(segs, m + 1);
      assert segs[..m + 1][..m] == segs[..m];
    } else {
      assert segs[..m] == segs;
    }
  }

  lemma StoredSplit(vals: seq<Obj>, bstack: seq<Block>, frames: seq<Header>, rt: Header, acts: seq<Act>, bottom: nat)
    requires Stored(vals, bstack, frames, rt, acts, bottom)
    ensures bottom <= rt.bp <= bottom + |vals| && Wf(acts) && vals == vals[..rt.bp - bottom] + Vals(acts)
  {
    StoredWf(vals, bstack, frames, rt, acts, bottom);
    hide Stored, WithTop, WithVals;
    StoredVals(vals, bstack, frames, rt, acts, bottom, []);
  }

  lemma AtOperator(vals: seq<Obj>, at: nat, top: seq<Obj>, argc: nat)
    requires at <= |vals| && vals == vals[..at] + top && argc < |top|
    ensures |vals| - argc - 1 >= 0 && vals[|vals| - argc - 1] == top[|top| - argc - 1]
  {
  }

  lemma InsertedOperator(low: seq<Obj>, top: seq<Obj>, k: nat, oop: Obj, all: seq<Obj>)
    requires k < |top|
    requires var mid := low + (top[..k] + [oop] + top[k + 1..]);
             all == mid[..|low| + k] + [top[k]] + mid[|low| + k..]
    ensures all == low + (top[..k] + [top[k], oop] + top[k + 1..])
  {
  }

  lemma InvokeParts(vals: seq<Obj>, at: nat, top: seq<Obj>, argc: nat, taken: nat, values: seq<Obj>)
    requires at <= |vals| && vals[at..] == top && argc + taken <= |top|
    requires values == [] || values == top[|top| - argc - taken..|top| - argc]
    ensures vals[|vals| - argc..] == top[|top| - argc..]
    ensures values != [] ==> vals[..|vals| - argc - taken] + values + vals[|vals| - argc..] == vals
    ensures values != [] ==> vals[..|vals| - argc - taken] + values == vals[..|vals| - argc]
  {
    assert vals == vals[..at] + top;
  }

  /** `acts` with `n` values fewer in the current block. */
  ghost function Dropped(acts: seq<Act>, n: nat): (r: seq<Act>)
    requires Wf(acts) && n <= |Vals(acts)|
    ensures Wf(r)
  {
    WithTop(acts, WithVals(Top(acts), Vals(acts)[..|Vals(acts)| - n]))
  }

  lemma DropNone(acts: seq<Act>)
    requires Wf(acts)
    ensures Dropped(acts, 0) == acts
  {
    var a := Top(acts);
    assert a.segs == a.segs[..|a.segs| - 1] + [Inner(a)];
    assert Vals(acts)[..|Vals(acts)|] == Vals(acts);
  }

  /** A return in terms of dropping and pushing. */
  lemma ReturnIs(acts: seq<Act>, v: Obj)
    requires Wf(acts) && |acts| > 1
    ensures var below, dump := acts[..|acts| - 1], Top(acts).dump;
            && Wf(below) && dump <= |Vals(below)| && (Top(below).ip == 0 ==> dump == 0)
            && Return(acts, v) == if Top(below).ip == 0 then Left(below) else Running(PushVal(Dropped(below, dump), v))
  {
    var below, dump := acts[..|acts| - 1], Top(acts).dump;
    assert WfCall(acts[|acts| - 2], acts[|acts| - 1]);
    DropNone(below);
    var d := Dropped(below, dump);
    if Top(below).ip != 0 {
      assert Top(PushVal(d, v)).segs == WithVals(Top(below), Kept(acts) + [v]).segs;
    }
  }

  lemma ReturnOver(acts: seq<Act>, v: Obj)
    requires Wf(acts)
    ensures |acts| == 1 ==> Return(acts, v) == Over
  {
  }

  lemma PopTop(acts: seq<Act>)
    requires Wf(acts) && Vals(acts) != []
    ensures var r := PopVal(acts);
            |r| == |acts| && r[..|r| - 1] == acts[..|acts| - 1] && Top(r).dump == Top(acts).dump
  {
  }

  /** The current block is armed, or nothing changes by looking. */
  lemma HereOrOutside(acts: seq<Act>, exc: Obj)
    requires Wf(acts)
    ensures var catc := Inner(Top(acts)).catch;
            if catc != 0 then
              |Top(acts).segs| > 1
              && var p := PushVal(SetCatch(acts, 0), exc); Raise(acts, exc) == Running(WithTop(p, Top(p).(ip := catc)))
            else |Top(acts).segs| > 1 ==> SetCatch(acts, 0) == acts
  {
    var a := Top(acts);
    if Inner(a).catch != 0 {
      var k := |a.segs| - 1;
      assert Armed(a.segs) == k;
      var p := PushVal(SetCatch(acts, 0), exc);
      assert Top(p).segs == a.segs[..k] + [Seg(0, a.segs[k].vals + [exc])];
    } else if |a.segs| > 1 {
      SetCatchSame(acts);
    }
  }

  lemma ReturnTop(acts: seq<Act>, r: seq<Act>, v: Obj)
    requires Wf(acts) && Wf(r) && |r| == |acts| && r[..|r| - 1] == acts[..|acts| - 1] && Top(r).dump == Top(acts).dump
    ensures Return(r, v) == Return(acts, v)
  {
    if |acts| > 1 {
      assert r[|r| - 2] == r[..|r| - 1][|r| - 2] == acts[|acts| - 2];
    }
  }

  lemma PushValIs(acts: seq<Act>, v: Obj)
    requires Wf(acts)
    ensures PushVal(acts, v) == WithTop(acts, WithVals(Top(acts), Vals(acts) + [v]))
  {
  }

  class Coroutine {
    // the value stack: `cells` starts at address `bottom`
    var bottom: nat
    var cells: array<Obj>
    var bstack: seq<Block>
    var frames: seq<Header>
    var rt: Header
    var sp: nat       // the stack pointer while the interpreter runs
    var saved: nat    // the stack pointer as stored in the runtime
    var alive: bool
    ghost var acts: seq<Act>

    /** The stored stack is the picture `acts`, with the stack pointer at `s`. */
    ghost predicate Fits(s: nat)
      reads this, cells
    {
      && alive && bottom <= s <= bottom + cells.Length
      && Stored(cells[..s - bottom], bstack, frames, rt, acts, bottom)
    }

    /** There is always room for one more value. */
    ghost predicate At(s: nat)
      reads this, cells
    {
      Fits(s) && s < bottom + cells.Length
    }

    ghost predicate Valid()
      reads this, cells
    {
      At(sp)
    }

    /** A coroutine about to run the function at `entry`, its stack at address `at`. */
    constructor (size: nat, at: nat, ctx: nat, entry: nat)
      requires size > 0
      ensures Valid() && fresh(cells) && acts == [Act(ctx, entry, 0, [Seg(0, [])])]
    {
      bottom, cells, bstack, frames := at, new Obj[size], [], [];
      rt, sp, saved, alive := Header(ctx, at, at, entry, 0, 0), at, at, true;
      acts := [Act(ctx, entry, 0, [Seg(0, [])])];
    }

    /** The coroutine is where `r` says it is. */
    ghost predicate Did(r: Outcome, exit: Exit)
      reads this, cells
    {
      match r
      case Running(a) => exit.ToHandler? && Valid() && acts == a
      case Left(a) => exit.ToNative? && At(saved) && acts == a
      case Over => exit.Killed? && !alive
      case Fatal => false
    }

    // -------------------------------------------------------------------------
    // Growing the value stack

    /** Every frame's addresses follow the stack to `to`. */
    method RelocateFrames(to: nat)
      requires forall k | 0 <= k < |frames| :: frames[k].bp >= bottom && frames[k].rbp >= bottom
      modifies this`frames
      ensures |frames| == |old(frames)| && forall k | 0 <= k < |frames| :: frames[k] == Shifted(old(frames)[k], bottom, to)
    {
      var i := 0;
      while i < |frames|
        invariant 0 <= i <= |frames| == |old(frames)|
        invariant forall k | 0 <= k < i :: frames[k] == Shifted(old(frames)[k], bottom, to)
        invariant forall k | i <= k < |frames| :: frames[k] == old(frames)[k]
      {
        var f := frames[i];
        frames := frames[i := f.(bp := to + (f.bp - bottom), rbp := to + (f.rbp - bottom))];
        i := i + 1;
      }
    }

    method Copied(size: nat) returns (copy: array<Obj>)
      requires size >= cells.Length
      ensures fresh(copy) && copy.Length == size && copy[..cells.Length] == cells[..]
    {
      copy := new Obj[size];
      forall i | 0 <= i < cells.Length {
        copy[i] := cells[i];
      }
    }

    /** Moves the stack to a larger array at address `to` and every address into it along. */
    method Relocate(size: nat, to: nat)
      requires Fits(saved) && size > cells.Length
      modifies this
      ensures sp == old(sp) && At(saved) && acts == old(acts) && fresh(cells) && cells.Length == size
      ensures saved - bottom == old(saved - bottom) && bottom == to
    {
      hide Stored;
      ghost var vals := cells[..saved - bottom];
      StoredAbove(vals, bstack, frames, rt, acts, bottom);
      var cells' := Copied(size);
      assert cells'[..saved - bottom] == vals;
      ghost var frames0 := frames;
      RelocateFrames(to);
      StoredShifted(vals, bstack, frames0, rt, acts, bottom, frames, to);
      rt := rt.(bp := to + (rt.bp - bottom), rbp := to + (rt.rbp - bottom));
      saved := to + (saved - bottom);
      bottom, cells := to, cells';
    }

    // -------------------------------------------------------------------------
    // Values

    method Push(v: Obj, to: nat)
      requires Valid()
      modifies this, cells
      ensures Valid() && acts == PushVal(old(acts), v) && (cells == old(cells) || fresh(cells))
    {
      hide Stored, PushVal, WithVals, WithTop;
      ghost var vals := cells[..sp - bottom];
      StoredWf(vals, bstack, frames, rt, acts, bottom);
      StoredVals(vals, bstack, frames, rt, acts, bottom, Vals(acts) + [v]);
      PushValIs(acts, v);
      assert vals[..rt.bp - bottom] + (vals[rt.bp - bottom..] + [v]) == vals + [v];
      cells[sp - bottom] := v;
      sp := sp + 1;
      assert cells[..sp - bottom] == vals + [v];
      acts := PushVal(acts, v);
      if sp == bottom + cells.Length {
        saved := sp;
        Relocate(2 * cells.Length, to);
        sp := saved;
      }
    }

    /** How many values the current block has. */
    method Avail() returns (n: nat)
      requires Valid()
      ensures Wf(acts) && n == |Vals(acts)|
    {
      hide Stored;
      StoredWf(cells[..sp - bottom], bstack, frames, rt, acts, bottom);
      StoredVals(cells[..sp - bottom], bstack, frames, rt, acts, bottom, []);
      n := sp - rt.bp;
    }

    method Pop() returns (v: Obj)
      requires Valid() && Wf(acts) && Vals(acts) != []
      modifies this`sp, this`acts
      ensures Valid() && acts == PopVal(old(acts)) && v == Vals(old(acts))[|Vals(old(acts))| - 1]
    {
      hide Stored, PopVal, WithVals, WithTop;
      ghost var vals, top := cells[..sp - bottom], Vals(acts);
      StoredVals(vals, bstack, frames, rt, acts, bottom, top[..|top| - 1]);
      PopValIs(acts);
      assert vals == vals[..rt.bp - bottom] + top;
      sp := sp - 1;
      v := cells[sp - bottom];
      assert cells[..sp - bottom] == vals[..rt.bp - bottom] + top[..|top| - 1];
      acts := PopVal(acts);
    }

    // -------------------------------------------------------------------------
    // Blocks

    /** The current block keeps `n` of its values, a new one gets the others. */
    method PushBlockC(n: nat)
      requires At(saved) && Wf(acts) && n <= |Vals(acts)|
      modifies this`bstack, this`rt, this`acts
      ensures At(saved) && acts == PushBlockAt(old(acts), n)
    {
      hide Stored, PushBlockAt;
      StoredPushBlock(cells[..saved - bottom], bstack, frames, rt, acts, bottom, n);
      bstack := bstack + [Block(0, n)];
      rt := rt.(bp := rt.bp + n);
      acts := PushBlockAt(acts, n);
    }

    method PushBlock()
      requires Valid()
      modifies this`saved, this`bstack, this`rt, this`acts
      ensures Valid() && Wf(old(acts)) && acts == PushBlockAt(old(acts), |Vals(old(acts))|)
    {
      var n := Avail();
      saved := sp;
      PushBlockC(n);
    }

    method PushBlockS1() returns (fatal: bool)
      requires Valid()
      modifies this`saved, this`bstack, this`rt, this`acts
      ensures Valid() && Wf(old(acts)) && fatal == (Vals(old(acts)) == [])
      ensures acts == if fatal then old(acts) else PushBlockAt(old(acts), |Vals(old(acts))| - 1)
    {
      var n := Avail();
      if n < 1 {
        return true;
      }
      saved := sp;
      PushBlockC(n - 1);
      return false;
    }

    /** Leaves the current block; an activation without a block of its own does nothing. */
    method PopBlockC() returns (popped: bool)
      requires At(saved)
      modifies this`bstack, this`rt, this`saved, this`acts
      ensures At(saved) && Wf(old(acts)) && acts == PopBlock(old(acts)) && popped == (|Top(old(acts)).segs| > 1)
      ensures |bstack| == |old(bstack)| - (if popped then 1 else 0) && saved <= old(saved) && frames == old(frames)
      ensures rt.dump == old(rt).dump
    {
      hide Stored, PopBlock;
      ghost var vals := cells[..saved - bottom];
      StoredWf(vals, bstack, frames, rt, acts, bottom);
      StoredBlocks(vals, bstack, frames, rt, acts, bottom);
      PopBlockIs(acts);
      if |bstack| == rt.bcur {
        return false;
      }
      StoredPopBlock(vals, bstack, frames, rt, acts, bottom);
      var count := bstack[|bstack| - 1].count;
      bstack := bstack[..|bstack| - 1];
      saved := rt.bp;
      rt := rt.(bp := rt.bp - count);
      acts := PopBlock(acts);
      assert cells[..saved - bottom] == vals[..saved - bottom];
      return true;
    }

    method PopBlockOp()
      requires Valid()
      modifies this`bstack, this`rt, this`saved, this`acts, this`sp
      ensures Valid() && Wf(old(acts)) && acts == PopBlock(old(acts))
    {
      hide Stored, PopBlock;
      saved := sp;
      var popped := PopBlockC();
      sp := saved;
    }

    /** Leaves the current block and keeps the value on top. */
    method PopBlockS1Op(to: nat) returns (fatal: bool)
      requires Valid()
      modifies this, cells
      ensures Valid() && Wf(old(acts)) && fatal == (Vals(old(acts)) == [])
      ensures acts == if fatal then old(acts) else PopBlockS1(old(acts))
    {
      hide Stored, PopBlock, PushVal, PopVal;
      var n := Avail();
      if n < 1 {
        return true;
      }
      var v := Pop();
      saved := sp;
      var popped := PopBlockC();
      sp := saved;
      Push(v, to);
      return false;
    }

    /** Leaves `n` blocks at once, at the end of a loop or to break out of it. */
    method IntLoop(n: nat)
      requires Valid()
      modifies this`bstack, this`rt, this`saved, this`acts, this`sp
      ensures Valid() && Wf(old(acts)) && acts == PopBlocks(old(acts), n)
    {
      hide Stored, PopBlock;
      StoredWf(cells[..sp - bottom], bstack, frames, rt, acts, bottom);
      saved := sp;
      var left := n;
      while left > 0
        invariant 0 <= left <= n && At(saved) && Wf(acts) && PopBlocks(acts, left) == PopBlocks(old(acts), n)
      {
        var popped := PopBlockC();
        left := left - 1;
      }
      sp := saved;
    }

    method SetCurCatch(catch: nat) returns (fatal: bool)
      requires Valid()
      modifies this`bstack, this`acts
      ensures Valid() && Wf(old(acts)) && fatal == (|Top(old(acts)).segs| == 1)
      ensures acts == if fatal then old(acts) else SetCatch(old(acts), catch)
    {
      hide Stored, SetCatch;
      ghost var vals := cells[..sp - bottom];
      StoredWf(vals, bstack, frames, rt, acts, bottom);
      StoredBlocks(vals, bstack, frames, rt, acts, bottom);
      if |bstack| == rt.bcur {
        return true;
      }
      StoredCatch(vals, bstack, frames, rt, acts, bottom, catch);
      bstack := bstack[|bstack| - 1 := bstack[|bstack| - 1].(catc := catch)];
      acts := SetCatch(acts, catch);
      return false;
    }

    /** Disarms the current block and says where it would have resumed. */
    method UnsetCurCatch(ghost s: nat) returns (catc: nat)
      requires At(s)
      modifies this`bstack, this`acts
      ensures At(s) && Wf(old(acts)) && catc == Inner(Top(old(acts))).catch && |bstack| == |old(bstack)|
      ensures acts == if |Top(old(acts)).segs| > 1 then SetCatch(old(acts), 0) else old(acts)
    {
      hide Stored, SetCatch;
      ghost var vals := cells[..s - bottom];
      StoredWf(vals, bstack, frames, rt, acts, bottom);
      StoredBlocks(vals, bstack, frames, rt, acts, bottom);
      if |bstack| == rt.bcur {
        return 0;
      }
      StoredCatch(vals, bstack, frames, rt, acts, bottom, 0);
      catc := bstack[|bstack| - 1].catc;
      bstack := bstack[|bstack| - 1 := bstack[|bstack| - 1].(catc := 0)];
      acts := SetCatch(acts, 0);
    }

    // -------------------------------------------------------------------------
    // Frames

    /** Leaves the activation on top, if there is another one. */
    method PopFrame(ghost s: nat) returns (popped: bool)
      requires At(s)
      modifies this`bstack, this`saved, this`rt, this`frames, this`acts
      ensures Wf(old(acts)) && popped == (|old(acts)| > 1)
      ensures popped ==> At(saved) && acts == old(acts)[..|old(acts)| - 1]
      ensures popped ==> Wf(acts) && old(rt).dump <= |Vals(acts)| && rt.bp + |Vals(acts)| == saved && bottom <= rt.bp && rt.ip == Top(acts).ip
    {
      hide Stored;
      ghost var vals := cells[..s - bottom];
      StoredWf(vals, bstack, frames, rt, acts, bottom);
      if |frames| == 0 {
        StoredBlocks(vals, bstack, frames, rt, acts, bottom);
        bstack := bstack[..rt.bcur];
        return false;
      }
      StoredLeave(vals, bstack, frames, rt, acts, bottom);
      StoredTop(vals, bstack, frames, rt, acts, bottom);
      bstack := bstack[..rt.bcur];
      saved := rt.rbp;
      rt := frames[|frames| - 1];
      frames := frames[..|frames| - 1];
      ghost var acts0 := acts;
      acts := acts[..|acts| - 1];
      assert cells[..saved - bottom] == vals[..saved - bottom];
      StoredWf(vals[..saved - bottom], bstack, frames, rt, acts, bottom);
      StoredVals(vals[..saved - bottom], bstack, frames, rt, acts, bottom, []);
      StoredTop(vals[..saved - bottom], bstack, frames, rt, acts, bottom);
      assert WfCall(acts0[|acts0| - 2], acts0[|acts0| - 1]);
      return true;
    }

    /** Disarms the current block, the `j`th that `was` had, or leaves it. */
    method CatchOrPop(ghost was: seq<Act>, ghost j: nat) returns (catc: nat, more: bool)
      requires At(saved) && Wf(was) && 0 < j <= |Top(was).segs| && acts == Cut(was, j)
      requires Armed(Top(was).segs) == Armed(Top(was).segs[..j])
      modifies this`bstack, this`rt, this`saved, this`acts
      ensures At(saved) && frames == old(frames) && rt.dump == old(rt).dump
      ensures catc != 0 ==>
        acts == Caught(was) && Armed(Top(was).segs) == j - 1 > 0 && catc == Top(was).segs[j - 1].catch
      ensures catc == 0 ==>
        var i := if j == 1 then 1 else j - 1;
        acts == Cut(was, i) && Armed(Top(was).segs) == Armed(Top(was).segs[..i]) && more == (j > 1) && |bstack| == |old(bstack)| - (j - i)
    {
      hide Stored, Cut, SetCatch, PopBlock, Armed, Caught;
      CutInner(was, j);
      more := true;
      catc := UnsetCurCatch(saved);
      if catc != 0 {
        CaughtAt(was, j);
        return;
      }
      NotHere(was, j);
      more := PopBlockC();
    }

    /** Leaves blocks of the activation on top until one is armed. */
    method PopToCatch() returns (catc: nat)
      requires At(saved)
      modifies this`bstack, this`rt, this`saved, this`acts
      ensures At(saved) && Wf(old(acts)) && acts == Caught(old(acts)) && frames == old(frames) && rt.dump == old(rt).dump
      ensures var k := Armed(Top(old(acts)).segs); catc == if k == 0 then 0 else Top(old(acts)).segs[k].catch
    {
      hide Stored, Cut, SetCatch, PopBlock, Armed, Caught;
      StoredWf(cells[..saved - bottom], bstack, frames, rt, acts, bottom);
      ghost var was, j := acts, |Top(acts).segs|;
      CutAll(was);
      assert Top(was).segs[..j] == Top(was).segs;
      var more := true;
      while more
        invariant At(saved) && frames == old(frames) && rt.dump == old(rt).dump
        invariant 0 < j <= |Top(was).segs| && acts == Cut(was, j) && Armed(Top(was).segs) == Armed(Top(was).segs[..j]) && (!more ==> j == 1)
        decreases |bstack|, more
      {
        catc, more := CatchOrPop(was, j);
        if catc != 0 {
          return;
        }
        j := if j == 1 then 1 else j - 1;
      }
      CaughtNone(was);
      return 0;
    }

    /** The interpreter goes on elsewhere in the activation on top. */
    method Goto(ip: nat, ghost s: nat)
      requires At(s)
      modifies this`rt, this`acts
      ensures At(s) && Wf(old(acts)) && acts == WithTop(old(acts), Top(old(acts)).(ip := ip))
    {
      hide Stored, WithTop;
      StoredWf(cells[..s - bottom], bstack, frames, rt, acts, bottom);
      StoredIp(cells[..s - bottom], bstack, frames, rt, acts, bottom, ip);
      rt := rt.(ip := ip);
      acts := WithTop(acts, Top(acts).(ip := ip));
    }

    // -------------------------------------------------------------------------
    // Exceptions

    /** Raises `exc`: in the current block if it is armed, else in the innermost one that
        is, giving up activations on the way. */
    method RaiseOp(exc: Obj, to: nat) returns (exit: Exit)
      requires Valid()
      modifies this, cells
      ensures Wf(old(acts))
      ensures Did(Raise(old(acts), exc), exit)
    {
      hide Stored, Raise, PushVal, SetCatch, Caught, WithTop;
      StoredWf(cells[..sp - bottom], bstack, frames, rt, acts, bottom);
      HereOrOutside(acts, exc);
      var catc := UnsetCurCatch(sp);
      saved := sp;
      if catc != 0 {
        Push(exc, to);
        Goto(catc, sp);
        return ToHandler;
      }
      exit := Unwind(exc, to);
    }

    /** Gives up activations until one has an armed block, `from` being the picture
        before its blocks were left. */
    method Unwind(exc: Obj, to: nat) returns (exit: Exit)
      requires At(saved)
      modifies this, cells
      ensures Wf(old(acts)) && Did(Raise(old(acts), exc), exit)
    {
      hide Stored, Raise, PushVal, SetCatch, Caught, WithTop, Armed;
      StoredWf(cells[..saved - bottom], bstack, frames, rt, acts, bottom);
      ghost var from := acts;
      ArmedIsInnermost(Top(from).segs);
      var catc := PopToCatch();
      while catc == 0
        invariant At(saved) && Wf(from) && Raise(from, exc) == Raise(old(acts), exc) && acts == Caught(from)
        invariant var k := Armed(Top(from).segs); (k == 0 <==> catc == 0) && (k != 0 ==> catc == Top(from).segs[k].catch)
        invariant cells == old(cells)
        decreases |from|
      {
        exit := GiveUp(from, exc);
        if exit != ToHandler {
          return;
        }
        from := acts;
        ArmedIsInnermost(Top(from).segs);
        catc := PopToCatch();
      }
      sp := saved;
      RaiseCaught(from, exc);
      Goto(catc, sp);
      Push(exc, to);
      return ToHandler;
    }

    /** No block of the activation on top is armed: it goes. */
    method GiveUp(ghost from: seq<Act>, exc: Obj) returns (exit: Exit)
      requires At(saved) && Wf(from) && acts == Caught(from) && Armed(Top(from).segs) == 0
      modifies this
      ensures cells == old(cells)
      ensures if exit.ToHandler? then At(saved) && Wf(acts) && |acts| < |from| && Raise(acts, exc) == Raise(from, exc)
              else Did(Raise(from, exc), exit)
    {
      hide Stored, Raise, Caught, Armed;
      RaiseUncaught(from, exc);
      StoredWf(cells[..saved - bottom], bstack, frames, rt, acts, bottom);
      var dump := rt.dump;
      var popped := PopFrame(saved);
      if popped {
        // the interpreter's own stack pointer drops the callee, the stored one does not
        sp := saved - dump;
        return if rt.ip == 0 then ToNative else ToHandler;
      }
      alive := false;
      return Killed;
    }

    // -------------------------------------------------------------------------
    // Calls

    method Drop(n: nat)
      requires Valid() && Wf(acts) && n <= |Vals(acts)|
      modifies this`sp, this`acts
      ensures Valid() && acts == Dropped(old(acts), n) && sp == old(sp) - n
    {
      hide Stored, WithVals, WithTop;
      ghost var vals, top := cells[..sp - bottom], Vals(acts);
      StoredVals(vals, bstack, frames, rt, acts, bottom, top[..|top| - n]);
      assert vals == vals[..rt.bp - bottom] + top;
      sp := sp - n;
      assert cells[..sp - bottom] == vals[..rt.bp - bottom] + top[..|top| - n];
      acts := Dropped(acts, n);
    }

    /** The activation on top goes and hands `v` on. */
    method Leave(v: Obj, to: nat) returns (exit: Exit)
      requires Valid()
      modifies this, cells
      ensures Wf(old(acts))
      ensures Did(Return(old(acts), v), exit)
    {
      hide Stored, Return, PushVal, Dropped, Wf, WithTop, WithVals;
      StoredWf(cells[..sp - bottom], bstack, frames, rt, acts, bottom);
      StoredTop(cells[..sp - bottom], bstack, frames, rt, acts, bottom);
      ReturnOver(acts, v);
      if |acts| > 1 {
        ReturnIs(acts, v);
      }
      var dump := rt.dump;
      var popped := PopFrame(sp);
      if popped {
        DropNone(acts);
        sp := saved;
        Drop(dump);
        if rt.ip == 0 {
          return ToNative;
        }
        Push(v, to);
        return ToHandler;
      }
      alive := false;
      return Killed;
    }

    /** Returns from the activation on top: the caller drops what the call left on its
        stack and gets one value, unless it is native code, which gets the value itself. */
    method ReturnOp(none: Obj, to: nat) returns (exit: Exit, v: Obj)
      requires Valid()
      modifies this, cells
      ensures Wf(old(acts)) && v == if Vals(old(acts)) == [] then none else Vals(old(acts))[|Vals(old(acts))| - 1]
      ensures Did(Return(old(acts), v), exit)
    {
      hide Stored, Return, PopVal;
      StoredWf(cells[..sp - bottom], bstack, frames, rt, acts, bottom);
      ghost var acts0 := acts;
      var n := Avail();
      v := none;
      if n > 0 {
        v := Pop();
        PopTop(acts0);
      }
      ReturnTop(acts0, acts, v);
      exit := Leave(v, to);
    }

    /** A new frame: the running activation is put on the frame stack. */
    method PushFrame()
      modifies this`frames, this`rt
      ensures frames == old(frames) + [old(rt)] && rt == old(rt).(bcur := |bstack|)
    {
      frames := frames + [rt];
      rt := rt.(bcur := |bstack|);
    }

    /** The new activation starts at the stack pointer. */
    method Begin(ctx: nat, entry: nat)
      modifies this`rt
      ensures rt == Header(ctx, saved, saved, entry, 0, old(rt).bcur)
    {
      rt := rt.(ctx := ctx, rbp := saved, bp := saved, ip := entry, dump := 0);
    }

    /** The frame below the stack pointer is left for a new one; `args` values above it are
        handed over, and `dump` values below it dropped when the call returns. */
    method Handover(ctx: nat, entry: nat, ret: nat, args: nat, dump: nat, ghost acts': seq<Act>)
      requires alive && bottom <= sp && sp + args < bottom + cells.Length
      requires Stored(cells[..sp + args - bottom], bstack, frames + [rt.(ip := ret)], Header(ctx, sp, sp, entry, dump, |bstack|), acts', bottom)
      modifies this`frames, this`rt, this`saved, this`sp, this`acts
      ensures Valid() && acts == acts'
    {
      hide Stored;
      rt := rt.(ip := ret);
      saved := sp;
      PushFrame();
      Begin(ctx, entry);
      sp := sp + args;
      rt := rt.(dump := dump);
      acts := acts';
    }

    /** Calls a function object with a parameter list: it and its arguments leave the
        stack, and the arguments are matched. */
    method InvokeMatch(argc: nat, ctx: nat, entry: nat, ret: nat) returns (fatal: bool, args: seq<Obj>)
      requires Valid() && ret != 0
      modifies this`frames, this`rt, this`saved, this`sp, this`acts
      ensures Valid() && Wf(old(acts)) && fatal == (|Vals(old(acts))| < argc + 1)
      ensures fatal ==> acts == old(acts)
      ensures !fatal ==>
        var top := Vals(old(acts));
        var call := Call(ctx, entry, ret, [], false);
        WfInvoke(old(acts), argc, 1, call) && acts == Invoke(old(acts), argc, 1, call) && args == top[|top| - argc..]
    {
      hide Stored, Invoke;
      ghost var vals := cells[..sp - bottom];
      StoredWf(vals, bstack, frames, rt, acts, bottom);
      var n := Avail();
      if n < argc + 1 {
        return true, [];
      }
      ghost var call := Call(ctx, entry, ret, [], false);
      StoredInvoke(vals, bstack, frames, rt, acts, bottom, argc, 1, call);
      InvokeParts(vals, rt.bp - bottom, Vals(acts), argc, 1, []);
      args := cells[sp - bottom - argc..sp - bottom];
      assert args == vals[|vals| - argc..];
      sp := sp - argc - 1;
      assert cells[..sp - bottom] == vals[..|vals| - argc - 1] + [] + [];
      Handover(ctx, entry, ret, 0, 0, Invoke(acts, argc, 1, call));
      return false, args;
    }

    /** Calls a function object without a parameter list: it stays on the caller's stack,
        and the arguments become the first values of the callee. */
    method InvokeDirect(argc: nat, ctx: nat, entry: nat, ret: nat) returns (fatal: bool)
      requires Valid() && ret != 0
      modifies this`frames, this`rt, this`saved, this`sp, this`acts
      ensures Valid() && Wf(old(acts)) && fatal == (|Vals(old(acts))| < argc + 1)
      ensures fatal ==> acts == old(acts)
      ensures !fatal ==>
        var top := Vals(old(acts));
        var call := Call(ctx, entry, ret, [top[|top| - argc - 1]], true);
        WfInvoke(old(acts), argc, 1, call) && acts == Invoke(old(acts), argc, 1, call)
    {
      hide Stored, Invoke;
      ghost var vals := cells[..sp - bottom];
      StoredWf(vals, bstack, frames, rt, acts, bottom);
      var n := Avail();
      if n < argc + 1 {
        return true;
      }
      ghost var callee := Vals(acts)[|Vals(acts)| - argc - 1];
      ghost var call := Call(ctx, entry, ret, [callee], true);
      StoredDirect(vals, bstack, frames, rt, acts, bottom, argc, call);
      hide WfInvoke;
      sp := sp - argc - 1;
      sp := sp + 1;
      assert cells[..sp + argc - bottom] == vals;
      Handover(ctx, entry, ret, argc, 1, Invoke(acts, argc, 1, call));
      return false;
    }

    /** Calls a function for a base with a parameter list. */
    method InvokeBaseMatch(argc: nat, ctx: nat, entry: nat, ret: nat) returns (fatal: bool, args: seq<Obj>)
      requires Valid() && ret != 0
      modifies this`frames, this`rt, this`saved, this`sp, this`acts
      ensures Valid() && Wf(old(acts)) && fatal == (|Vals(old(acts))| < argc + 2)
      ensures fatal ==> acts == old(acts)
      ensures !fatal ==>
        var top := Vals(old(acts));
        var call := Call(ctx, entry, ret, [], false);
        WfInvoke(old(acts), argc, 2, call) && acts == Invoke(old(acts), argc, 2, call) && args == top[|top| - argc..]
    {
      hide Stored, Invoke;
      ghost var vals := cells[..sp - bottom];
      StoredWf(vals, bstack, frames, rt, acts, bottom);
      var n := Avail();
      if n < argc + 2 {
        return true, [];
      }
      ghost var call := Call(ctx, entry, ret, [], false);
      StoredInvoke(vals, bstack, frames, rt, acts, bottom, argc, 2, call);
      InvokeParts(vals, rt.bp - bottom, Vals(acts), argc, 2, []);
      args := cells[sp - bottom - argc..sp - bottom];
      assert args == vals[|vals| - argc..];
      sp := sp - argc - 2;
      assert cells[..sp - bottom] == vals[..|vals| - argc - 2] + [] + [];
      Handover(ctx, entry, ret, 0, 0, Invoke(acts, argc, 2, call));
      return false, args;
    }

    /** Calls a function for a base without a parameter list: base and function go back on
        the caller's stack as they were found to be (`base`, `func`). */
    method InvokeBaseDirect(argc: nat, base: Obj, func: Obj, ctx: nat, entry: nat, ret: nat) returns (fatal: bool)
      requires Valid() && ret != 0
      modifies this`frames, this`rt, this`saved, this`sp, this`acts, cells
      ensures Valid() && Wf(old(acts)) && fatal == (|Vals(old(acts))| < argc + 2)
      ensures fatal ==> acts == old(acts)
      ensures !fatal ==>
        var call := Call(ctx, entry, ret, [base, func], true);
        WfInvoke(old(acts), argc, 2, call) && acts == Invoke(old(acts), argc, 2, call)
    {
      hide Stored, Invoke;
      ghost var vals := cells[..sp - bottom];
      StoredWf(vals, bstack, frames, rt, acts, bottom);
      var n := Avail();
      if n < argc + 2 {
        return true;
      }
      ghost var call := Call(ctx, entry, ret, [base, func], true);
      StoredInvoke(vals, bstack, frames, rt, acts, bottom, argc, 2, call);
      sp := sp - argc - 2;
      cells[sp - bottom] := base;
      cells[sp - bottom + 1] := func;
      sp := sp + 2;
      assert cells[..sp + argc - bottom] == vals[..|vals| - argc - 2] + [base, func] + vals[|vals| - argc..];
      Handover(ctx, entry, ret, argc, 2, Invoke(acts, argc, 2, call));
      return false;
    }

    /** Native code calls a function: a frame without values on top of its own. */
    method EnterOp(ctx: nat, entry: nat)
      requires At(saved)
      modifies this`frames, this`rt, this`sp, this`acts
      ensures Valid() && Wf(old(acts)) && acts == Enter(old(acts), ctx, entry)
    {
      hide Stored, Enter;
      ghost var vals := cells[..saved - bottom];
      StoredWf(vals, bstack, frames, rt, acts, bottom);
      StoredEnter(vals, bstack, frames, rt, acts, bottom, ctx, entry);
      PushFrame();
      Begin(ctx, entry);
      acts := Enter(acts, ctx, entry);
      sp := saved;
    }

    /** Room for `n` more values. */
    method Ensure(n: nat, to: nat)
      requires Valid()
      modifies this
      ensures Valid() && acts == old(acts) && sp + n < bottom + cells.Length && sp - bottom == old(sp - bottom)
      ensures cells == old(cells) || fresh(cells)
    {
      hide Stored;
      if sp + n >= bottom + cells.Length {
        saved := sp;
        Relocate(if cells.Length < n then 2 * cells.Length + n else 2 * cells.Length, to);
        sp := saved;
      }
    }

    /** Calling an object that is no function: its `()` operator is called for it.  The
        operator takes the object's place and the object becomes its base. */
    method PutOperator(argc: nat, oop: Obj, to: nat) returns (fatal: bool)
      requires Valid()
      modifies this, cells
      ensures Valid() && Wf(old(acts)) && fatal == (|Vals(old(acts))| < argc + 1)
      ensures fatal ==> acts == old(acts)
      ensures !fatal ==>
        var top := Vals(old(acts));
        var k := |top| - argc - 1;
        acts == WithTop(old(acts), WithVals(Top(old(acts)), top[..k] + [top[k], oop] + top[k + 1..]))
    {
      hide Stored, WithTop, WithVals, Wf, Vals;
      ghost var vals := cells[..sp - bottom];
      StoredWf(vals, bstack, frames, rt, acts, bottom);
      var n := Avail();
      if n < argc + 1 {
        return true;
      }
      ghost var top, k := Vals(acts), |Vals(acts)| - argc - 1;
      StoredSplit(vals, bstack, frames, rt, acts, bottom);
      AtOperator(vals, rt.bp - bottom, top, argc);
      var obj := cells[sp - bottom - argc - 1];
      Ensure(1, to);
      PlaceOperator(argc, obj, oop);
      return false;
    }

    method PlaceOperator(argc: nat, obj: Obj, oop: Obj)
      requires Valid() && Wf(acts) && argc < |Vals(acts)| && obj == Vals(acts)[|Vals(acts)| - argc - 1]
      requires sp + 1 < bottom + cells.Length
      modifies this`sp, this`acts, cells
      ensures Valid()
      ensures var top := Vals(old(acts));
              var k := |top| - argc - 1;
              acts == WithTop(old(acts), WithVals(Top(old(acts)), top[..k] + [top[k], oop] + top[k + 1..]))
    {
      hide Stored, WithTop, WithVals;
      ghost var vals, top := cells[..sp - bottom], Vals(acts);
      ghost var k := |top| - argc - 1;
      ghost var top' := top[..k] + [top[k], oop] + top[k + 1..];
      StoredSplit(vals, bstack, frames, rt, acts, bottom);
      StoredVals(vals, bstack, frames, rt, acts, bottom, top');
      Replace(argc, obj, oop, vals[..rt.bp - bottom], top);
      acts := WithTop(acts, WithVals(Top(acts), top'));
    }

    /** Puts `oop` in place of the value below the top `argc` ones and `obj` below it. */
    method Replace(argc: nat, obj: Obj, oop: Obj, ghost low: seq<Obj>, ghost top: seq<Obj>)
      requires bottom <= sp && sp + 1 < bottom + cells.Length && cells[..sp - bottom] == low + top
      requires argc < |top| && obj == top[|top| - argc - 1]
      modifies this`sp, cells
      ensures sp == old(sp) + 1
      ensures var k := |top| - argc - 1; cells[..sp - bottom] == low + (top[..k] + [top[k], oop] + top[k + 1..])
    {
      ghost var k := |top| - argc - 1;
      cells[sp - bottom - argc - 1] := oop;
      ghost var mid := cells[..sp - bottom];
      assert mid == low + (top[..k] + [oop] + top[k + 1..]);
      InsertBelow(argc + 1, obj);
      InsertedOperator(low, top, k, oop, cells[..sp - bottom]);
    }

    /** Moves the top `n` values up by one and puts `v` below them. */
    method InsertBelow(n: nat, v: Obj)
      requires bottom + n <= sp && sp + 1 < bottom + cells.Length
      modifies this`sp, cells
      ensures sp == old(sp) + 1
      ensures var k := old(sp) - bottom - n; cells[..sp - bottom] == old(cells[..k]) + [v] + old(cells[k..sp - bottom])
    {
      ghost var all, k := cells[..], sp - bottom - n;
      sp := sp + 1;
      forall i | sp - bottom - 1 - n <= i < sp - bottom - 1 {
        cells[i + 1] := cells[i];
      }
      cells[sp - 1 - n - bottom] := v;
      MovedUp(all, cells[..], k, k + n, v);
    }

    static lemma MovedUp(all: seq<Obj>, r: seq<Obj>, k: nat, end: nat, v: Obj)
      requires k <= end < |all| == |r| && r[k] == v
      requires forall i | 0 <= i < k :: r[i] == all[i]
      requires forall i | k <= i < end :: r[i + 1] == all[i]
      ensures r[..end + 1] == all[..k] + [v] + all[k..end]
    {
      forall i | k < i < end + 1 ensures r[i] == all[i - 1] {
        assert r[i - 1 + 1] == all[i - 1];
      }
    }

    // -------------------------------------------------------------------------
    // Looking into outer blocks

    /** The sizes of the `n` blocks around the current one, nearest first, added up. */
    method TopN(n: nat) returns (sum: nat)
      requires n <= |bstack|
      ensures sum == Counts(bstack[|bstack| - n..])
    {
      sum := 0;
      var i := |bstack|;
      while i > |bstack| - n
        invariant |bstack| - n <= i <= |bstack| && sum == Counts(bstack[i..])
      {
        i := i - 1;
        CountsFront(bstack[i..]);
        assert bstack[i..][1..] == bstack[i + 1..];
        sum := sum + bstack[i].count;
      }
    }

    /** The last value of the `n`th block around the current one. */
    method PrevBlockTop(n: nat) returns (v: Obj)
      requires Valid() && Wf(acts) && 0 < n < |Top(acts).segs|
      requires var segs := Top(acts).segs; segs[|segs| - 1 - n].vals != []
      ensures var vals := Top(acts).segs[|Top(acts).segs| - 1 - n].vals; v == vals[|vals| - 1]
    {
      hide Stored;
      ghost var vals := cells[..sp - bottom];
      StoredBlocks(vals, bstack, frames, rt, acts, bottom);
      var sum := TopN(n - 1);
      BlockEnd(vals, bstack, frames, rt, acts, bottom, n);
      v := cells[rt.bp - sum - 1 - bottom];
    }

    // -------------------------------------------------------------------------
    // What every state keeps

    /** In every frame the base pointer is the frame's start plus the sizes of its blocks;
        frames nest, and the stack pointer is beyond them and inside the array. */
    lemma FramesNest()
      requires Valid()
      ensures bottom <= rt.rbp <= rt.bp <= sp < bottom + cells.Length
      ensures rt.bcur <= |bstack| && rt.bp == rt.rbp + Counts(bstack[rt.bcur..])
      ensures AllNest(bstack, frames + [rt])
    {
      hide Stored, AllNest;
      Nested(cells[..sp - bottom], bstack, frames, rt, acts, bottom);
      StoredWf(cells[..sp - bottom], bstack, frames, rt, acts, bottom);
      StoredVals(cells[..sp - bottom], bstack, frames, rt, acts, bottom, []);
    }
  }
}
