/** The generational copying collector and the state it works on. */
module Collector {
  import opened Basics
  import opened GcGraph
  import opened GcTheorem
  import opened ContextRefs
  import opened GcFinish
  import opened GcScopes

  /** The traverser argument: the id of this collection, the oldest generation it moves. */
  datatype Arg = Arg(cid: nat, gen: nat)

  function WithSlots(n: Node, slots: Ptr): Node requires n.body.Object? { n.(body := n.body.(slots := slots)) }
  function WithProto(n: Node, proto: Ptr): Node requires n.body.Object? { n.(body := n.body.(proto := proto)) }
  function WithItems(n: Node, items: seq<Ptr>): Node requires n.body.Object? { n.(body := n.body.(items := items)) }
  function WithEntries(n: Node, entries: seq<Entry>): Node requires n.body.Table? { n.(body := n.body.(entries := entries)) }

  class State {
    // memory: three heaps of nodes, and the contexts
    var mem: map<Ptr, Node>
    var ctxs: map<Ptr, Context>
    var heap0: set<Ptr>
    var heap1: set<Ptr>
    var heap2: set<Ptr>
    var stuid: nat
    var refs: map<Ptr, int>   // the contexts' reference counts
    // roots
    var coros: seq<Coro>
    var protos: seq<Ptr>
    var except: Ptr
    var loaded: Ptr
    var none: Ptr
    // remembered sets
    var wbObj: seq<Ptr>
    var wbSlot: seq<Ptr>
    var wbCtx: seq<Ptr>
    var wbCoro: seq<nat>
    // destructor log, and the objects whose destructor has run
    var log: seq<Ptr>
    var destructed: seq<nat>
    var cid: nat
    var gen: nat

    // the contexts that can still be reached, and an order along `prev`
    ghost var liveCtx: set<Ptr>
    ghost var rank: map<Ptr, nat>

    // the collection in progress
    ghost var base: Base
    ghost var org: map<Ptr, Ptr>
    ghost var kept: set<Ptr>

    /** A state with nothing allocated yet. */
    constructor (coroutines: nat)
      ensures Valid() && mem == map[] && ctxs == map[] && |coros| == coroutines
      ensures forall k | 0 <= k < coroutines :: coros[k] == Coro(0, [], [], 0, false)
    {
      mem, ctxs, heap0, heap1, heap2, stuid, refs := map[], map[], {}, {}, {}, 0, map[];
      coros, protos, except, loaded, none := seq(coroutines, k => Coro(0, [], [], 0, false)), [], 0, 0, 0;
      wbObj, wbSlot, wbCtx, wbCoro, log, destructed, cid, gen := [], [], [], [], [], [], 0, 0;
      liveCtx, rank, org, kept := {}, map[], map[], {};
    }

    ghost function Now(): Snap reads this { Snap(mem, ctxs, org, stuid) }

    ghost predicate Ready(arg: Arg)
      reads this
    {
      && Start(base) && Inv(base, Now()) && arg == Arg(base.cid, base.gen)
      && base.uid <= stuid
      && (if arg.gen == 0 then heap1 == kept + org.Keys && heap2 == {} else heap1 == kept && heap2 == org.Keys)
    }

    /** Allocation never hands out an address that is in use. */
    method FreshAddress() returns (a: Ptr)
      ensures a != 0 && a !in mem && a !in ctxs
    {
      a := 1;
      ghost var tried: set<Ptr> := {};
      while a in mem || a in ctxs
        invariant 1 <= a && tried <= mem.Keys + ctxs.Keys
        invariant forall t | t in tried :: t < a
        decreases mem.Keys + ctxs.Keys - tried
      {
        tried := tried + {a};
        a := a + 1;
      }
    }

    /** Copies `a` into the heap that survives and leaves the forwarding address behind.
        A slot table also loses its write-barrier mark. */
    method AddCopy(arg: Arg, a: Ptr, n: Node) returns (ret: Ptr)
      requires Ready(arg) && a in mem && Moves(base, a) && a in base.reach && mem[a].copy == 0
      requires n.gen == 1 && n.copy == 0 && !n.wb && (n.body.Object? <==> mem[a].body.Object?)
      requires (n.body.Table? ==> n.body.uid > base.uid) && OwnUid(mem, stuid, n.body)
      modifies this`mem, this`org, this`heap1, this`heap2
      ensures Ready(arg) && ret !in old(mem) && ret in mem && ret in org && org[ret] == a && mem[ret] == n
      ensures Step(base, old(Now()), Now(), {ret}) && Todo(base, Now()) < Todo(base, old(Now()))
      ensures a in mem && mem[a].copy == ret && ret != 0
    {
      hide Inv, Step, Start, Todo, CanForward, OwnUid;
      ret := FreshAddress();
      ghost var wb := mem[a].wb && mem[a].body.Object?;
      assert CanForward(base, Now(), a, ret, n) by {
        NodeFacts(base, Now(), a);
        MakeCanForward(base, Now(), a, ret, n);
      }
      ForwardInv(base, Now(), a, ret, n, wb);
      ForwardStep(base, Now(), a, ret, n, wb);
      if arg.gen == 0 {
        heap1 := heap1 + {ret};
      } else {
        heap2 := heap2 + {ret};
      }
      mem := mem[ret := n];
      mem := mem[a := if mem[a].body.Table? then mem[a].(wb := false, copy := ret) else mem[a].(copy := ret)];
      org := org[ret := a];
      assert org.Keys == old(org.Keys) + {ret};
      assert Now() == Forwarded(old(Now()), a, ret, n, wb);
    }

    /** Write barrier for a pointer from one object to another. */
    method WriteBarrierObj(parent: Ptr, child: Ptr)
      requires parent in mem && child in mem
      modifies this`mem, this`wbObj
      ensures if old(mem[parent].gen != 0 && mem[child].gen == 0 && !mem[parent].wb)
              then wbObj == old(wbObj) + [parent] && mem == old(mem)[parent := old(mem[parent]).(wb := true)]
              else wbObj == old(wbObj) && mem == old(mem)
    {
      if mem[parent].gen != 0 && mem[child].gen == 0 {
        if !mem[parent].wb {
          wbObj := wbObj + [parent];
          mem := mem[parent := mem[parent].(wb := true)];
        }
      }
    }

    method SetProto(obj: Ptr, proto: Ptr)
      requires obj in mem && mem[obj].body.Object? && (proto != 0 ==> proto in mem)
      modifies this`mem, this`wbObj
      ensures proto == 0 || old(mem[obj]).gen == 0 || old(mem[proto]).gen != 0 || old(mem[obj]).wb ==>
                wbObj == old(wbObj) && mem == old(mem)[obj := WithProto(old(mem[obj]), proto)]
      ensures !(proto == 0 || old(mem[obj]).gen == 0 || old(mem[proto]).gen != 0 || old(mem[obj]).wb) ==>
                wbObj == old(wbObj) + [obj] && mem == old(mem)[obj := WithProto(old(mem[obj]), proto).(wb := true)]
    {
      if proto != 0 {
        WriteBarrierObj(obj, proto);
      }
      mem := mem[obj := WithProto(mem[obj], proto)];
    }

    // -------------------------------------------------------------------------
    // The traversal

    method CopyObject(arg: Arg, obj: Ptr) returns (ret: Ptr)
      requires Ready(arg) && IsObject(base.mem, base.reach, obj)
      modifies this`mem, this`ctxs, this`org, this`heap1, this`heap2, this`stuid, this`wbObj
      ensures Ready(arg) && wbObj == old(wbObj)
      ensures Step(base, old(Now()), Now(), {}) && Img(base, Now(), obj, ret)
      decreases Todo(base, Now()), 1
    {
      hide Inv, Step, Start, Todo;
      StepRefl(base, Now());
      if obj == 0 {
        return 0;
      }
      NodeFacts(base, Now(), obj);
      if mem[obj].gen != 0 && arg.gen == 0 {
        return obj;
      }
      if mem[obj].copy != 0 {
        return mem[obj].copy;
      }
      ret := CopyObjectC(arg, obj);
    }

    method CopyObjectC(arg: Arg, obj: Ptr) returns (ret: Ptr)
      requires Ready(arg) && obj in base.reach && Moves(base, obj) && base.mem[obj].body.Object?
      requires obj in mem && mem[obj].copy == 0
      modifies this`mem, this`ctxs, this`org, this`heap1, this`heap2, this`stuid, this`wbObj
      ensures Ready(arg) && wbObj == old(wbObj)
      ensures Step(base, old(Now()), Now(), {}) && Img(base, Now(), obj, ret)
      decreases Todo(base, Now()), 0
    {
      hide Inv, Step, Start, Todo, ImgBody;
      ghost var s0 := Now();
      NodeFacts(base, s0, obj);
      ret := AddCopy(arg, obj, mem[obj].(copy := 0, gen := 1, wb := false));
      ghost var s1 := Now();
      CopyFacts(base, s1, ret);
      assert Img(base, s1, obj, ret);
      ForwardFields(arg, ret, base.mem[obj].body);
      FinishCopy(base, s0, s1, Now(), obj, ret);
    }

    method ForwardSlots(arg: Arg, a: Ptr, ghost o: Body) returns (slots: Ptr)
      requires Ready(arg) && a in mem && !Moves(base, a) && o.Object?
      requires mem[a] == Node(o, 1, false, 0)
      requires WfBody(base.mem, base.ctxs, base.reach, o)
      modifies this`mem, this`ctxs, this`org, this`heap1, this`heap2, this`stuid, this`wbObj
      ensures Ready(arg) && wbObj == old(wbObj) && a in mem && mem[a] == WithSlots(old(mem)[a], slots)
      ensures Step(base, old(Now()), Now(), {a}) && Img(base, Now(), o.slots, slots)
      ensures Todo(base, Now()) <= Todo(base, old(Now()))
      decreases Todo(base, Now()), 5
    {
      hide Inv, Step, Start, Todo, Img, Settled;
      ghost var s0 := Now();
      StepRefl(base, s0);
      StepWiden(base, s0, s0, {}, {a});
      slots := CopySlotTable(arg, mem[a].body.slots);
      ghost var s1 := Now();
      CallThenRewrite(base, s0, s0, s1, a, WithSlots(s0.mem[a], slots));
      mem := mem[a := WithSlots(mem[a], slots)];
      ghost var s2 := Now();
      ImgKept(base, s1, s2, {a}, o.slots, slots);
      TodoShrinks(base, s0, s2, {a});
    }

    /** Replaces every pointer of the object at `a`, a copy or a node that stays, by its image. */
    method ForwardFields(arg: Arg, a: Ptr, ghost o: Body)
      requires Ready(arg) && a in mem && !Moves(base, a) && o.Object?
      requires mem[a] == Node(o, 1, false, 0)
      requires WfBody(base.mem, base.ctxs, base.reach, o)
      modifies this`mem, this`ctxs, this`org, this`heap1, this`heap2, this`stuid, this`wbObj
      ensures Ready(arg) && wbObj == old(wbObj)
      ensures Step(base, old(Now()), Now(), {a}) && a in mem && ImgBody(base, Now(), o, mem[a].body)
      ensures Todo(base, Now()) <= Todo(base, old(Now()))
      ensures mem[a].gen == 1 && mem[a].copy == 0 && !mem[a].wb
      decreases Todo(base, Now()), 6
    {
      hide Inv, Step, Start, Todo, Img, Settled;
      ghost var s0 := Now();
      var slots := ForwardSlots(arg, a, o);
      ghost var s2 := Now();
      var proto := CopyObject(arg, mem[a].body.proto);
      ghost var s3 := Now();
      CallThenRewrite(base, s0, s2, s3, a, WithProto(s2.mem[a], proto));
      if proto != 0 {
        ImgIsOld(base, s3, o.proto, proto);
      }
      SetProto(a, proto);
      ghost var s4 := Now();
      assert s4 == s3.(mem := s3.mem[a := WithProto(s2.mem[a], proto)]);
      ImgKept(base, s2, s4, {a}, o.slots, slots);
      ImgKept(base, s3, s4, {a}, o.proto, proto);

      Traverse(arg, a, o);
      ghost var s5 := Now();
      StepTrans(base, s0, s4, s5, {a}, {a}, {a});
      TodoShrinks(base, s0, s5, {a});
      ImgKept(base, s4, s5, {a}, o.slots, slots);
      ImgKept(base, s4, s5, {a}, o.proto, proto);
    }

    /** The traverser of the object's type. */
    method Traverse(arg: Arg, a: Ptr, ghost o: Body)
      requires Ready(arg) && a in mem && !Moves(base, a) && o.Object?
      requires mem[a].body.Object? && mem[a].body.items == o.items && mem[a].body.scope == o.scope
      requires WfBody(base.mem, base.ctxs, base.reach, o)
      requires mem[a].gen == 1 && mem[a].copy == 0 && !mem[a].wb
      modifies this`mem, this`ctxs, this`org, this`heap1, this`heap2, this`stuid, this`wbObj
      ensures Ready(arg) && wbObj == old(wbObj)
      ensures Step(base, old(Now()), Now(), {a}) && a in mem && mem[a].body.Object?
      ensures ImgSeq(base, Now(), o.items, mem[a].body.items) && Settled(base, Now(), o.scope)
      ensures mem[a] == WithItems(old(mem[a]), mem[a].body.items)
      decreases Todo(base, Now()), 4
    {
      hide Inv, Step, Start, Todo, Img, Settled;
      ghost var s0 := Now();
      StepRefl(base, s0);
      StepWiden(base, s0, s0, {}, {a});
      var i := 0;
      while i < |mem[a].body.items|
        invariant Ready(arg) && wbObj == old(wbObj)
        invariant Step(base, s0, Now(), {a}) && Todo(base, Now()) <= Todo(base, s0)
        invariant a in mem && mem[a].body.Object? && mem[a] == WithItems(old(mem[a]), mem[a].body.items)
        invariant 0 <= i <= |mem[a].body.items| == |o.items|
        invariant forall k | 0 <= k < i :: Img(base, Now(), o.items[k], mem[a].body.items[k])
        invariant forall k | i <= k < |o.items| :: mem[a].body.items[k] == o.items[k]
        decreases |o.items| - i
      {
        ghost var s1 := Now();
        var q := CopyObject(arg, mem[a].body.items[i]);
        ghost var s2 := Now();
        CallThenRewrite(base, s0, s1, s2, a, WithItems(s1.mem[a], s1.mem[a].body.items[i := q]));
        mem := mem[a := WithItems(mem[a], mem[a].body.items[i := q])];
        forall k | 0 <= k <= i ensures Img(base, Now(), o.items[k], mem[a].body.items[k]) {
          if k < i {
            ImgKept(base, s1, Now(), {a}, o.items[k], s1.mem[a].body.items[k]);
          } else {
            ImgKept(base, s2, Now(), {a}, o.items[k], q);
          }
        }
        i := i + 1;
      }
      ghost var s3 := Now();
      TravContext(arg, mem[a].body.scope);
      StillThere(base, s3, Now(), a);
      StepTrans(base, s0, s3, Now(), {a}, {}, {a});
      forall k | 0 <= k < i ensures Img(base, Now(), o.items[k], mem[a].body.items[k]) {
        ImgKept(base, s3, Now(), {}, o.items[k], mem[a].body.items[k]);
      }
    }

    method CopySlotTable(arg: Arg, table: Ptr) returns (ret: Ptr)
      requires Ready(arg) && IsTable(base.mem, base.reach, table)
      modifies this`mem, this`ctxs, this`org, this`heap1, this`heap2, this`stuid, this`wbObj
      ensures Ready(arg) && wbObj == old(wbObj)
      ensures Step(base, old(Now()), Now(), {}) && Img(base, Now(), table, ret)
      decreases Todo(base, Now()), 1
    {
      hide Inv, Step, Start, Todo, ImgBody;
      StepRefl(base, Now());
      if table == 0 {
        return 0;
      }
      NodeFacts(base, Now(), table);
      if mem[table].gen != 0 && arg.gen == 0 {
        return table;
      }
      if mem[table].copy != 0 {
        return mem[table].copy;
      }
      NextUid(base, Now());
      stuid := stuid + 1;
      ghost var s0 := Now();
      ret := AddCopy(arg, table, mem[table].(copy := 0, gen := 1, wb := false, body := mem[table].body.(uid := stuid)));
      ghost var s1 := Now();
      CopyFacts(base, s1, ret);
      assert Img(base, s1, table, ret);
      ForwardEntries(arg, ret, base.mem[table].body);
      FinishCopy(base, s0, s1, Now(), table, ret);
      StepTrans(base, old(Now()), s0, Now(), {}, {}, {});
    }

    /** Replaces every value of the slot table at `a` by its image. */
    method ForwardEntries(arg: Arg, a: Ptr, ghost o: Body)
      requires Ready(arg) && a in mem && !Moves(base, a) && o.Table?
      requires mem[a].body.Table? && mem[a].body.entries == o.entries && mem[a].body.shared == o.shared
      requires WfBody(base.mem, base.ctxs, base.reach, o)
      requires mem[a].gen == 1 && mem[a].copy == 0 && !mem[a].wb
      modifies this`mem, this`ctxs, this`org, this`heap1, this`heap2, this`stuid, this`wbObj
      ensures Ready(arg) && wbObj == old(wbObj)
      ensures Step(base, old(Now()), Now(), {a}) && a in mem && ImgBody(base, Now(), o, mem[a].body)
      ensures Todo(base, Now()) <= Todo(base, old(Now()))
      ensures mem[a] == WithEntries(old(mem[a]), mem[a].body.entries)
      decreases Todo(base, Now()), 2
    {
      hide Inv, Step, Start, Todo, Img, Settled, ImgUpTo;
      ghost var s0, es := Now(), o.entries;
      StepRefl(base, s0);
      StepWiden(base, s0, s0, {}, {a});
      NoneForwarded(base, s0, es);
      var i := 0;
      while i < |mem[a].body.entries|
        invariant Ready(arg) && wbObj == old(wbObj)
        invariant Step(base, s0, Now(), {a}) && Todo(base, Now()) <= Todo(base, s0)
        invariant a in mem && mem[a].body.Table? && mem[a] == WithEntries(old(mem[a]), mem[a].body.entries)
        invariant 0 <= i <= |mem[a].body.entries| == |es| && ImgUpTo(base, Now(), es, mem[a].body.entries, i)
        decreases |es| - i
      {
        ghost var s1 := Now();
        var e := mem[a].body.entries[i];
        NextEntry(base, s1, es, mem[a].body.entries, i);
        if e.key != 0 && e.val != 0 {
          var q := CopyObject(arg, e.val);
          ghost var s2 := Now();
          CallThenRewrite(base, s0, s1, s2, a, WithEntries(s1.mem[a], s1.mem[a].body.entries[i := Entry(e.key, q)]));
          mem := mem[a := WithEntries(mem[a], mem[a].body.entries[i := Entry(e.key, q)])];
          ImgKept(base, s2, Now(), {a}, e.val, q);
          EntryForwarded(base, s1, Now(), {a}, es, s1.mem[a].body.entries, i, q);
        } else {
          ImgNull(base, Now(), e.val);
          EntryDone(base, s1, es, mem[a].body.entries, i);
        }
        i := i + 1;
      }
      AllForwarded(base, Now(), es, mem[a].body.entries);
    }

    method TravSingleContext(arg: Arg, c: Ptr)
      requires Ready(arg) && c in base.reach && c in base.ctxs && c in ctxs
      requires ctxs[c].gen > arg.gen && !ctxs[c].wb ==> ctxs[c].cid == arg.cid
      modifies this`mem, this`ctxs, this`org, this`heap1, this`heap2, this`stuid, this`wbObj
      ensures Ready(arg) && wbObj == old(wbObj) && c in ctxs && ctxs[c].cid == arg.cid
      ensures if old(ctxs[c]).cid == arg.cid then Now() == old(Now())
              else Step(base, old(Now()), Now(), {c}) && ImgContext(base, Now(), base.ctxs[c], ctxs[c])
      decreases Todo(base, Now()), 2
    {
      hide Inv, Step, Start, Todo, Img;
      if ctxs[c].cid == arg.cid {
        return;
      }
      ghost var s0 := Now();
      ContextFacts(base, s0, c);
      RewriteContext(base, s0, c, s0.ctxs[c].(gen := 1, wb := false, cid := arg.cid));
      ctxs := ctxs[c := ctxs[c].(gen := 1, wb := false, cid := arg.cid)];
      ghost var s1 := Now();

      var obj := CopyObject(arg, ctxs[c].obj);
      ghost var s2 := Now();
      CallThenRewriteContext(base, s0, s1, s2, c, s1.ctxs[c].(obj := obj));
      ctxs := ctxs[c := ctxs[c].(obj := obj)];
      ghost var s3 := Now();
      ImgKept(base, s2, s3, {c}, base.ctxs[c].obj, obj);
      TodoShrinks(base, s1, s3, {c});

      var slots := CopySlotTable(arg, ctxs[c].slots);
      ghost var s4 := Now();
      CallThenRewriteContext(base, s0, s3, s4, c, s3.ctxs[c].(slots := slots));
      ctxs := ctxs[c := ctxs[c].(slots := slots)];
      ImgKept(base, s3, Now(), {c}, base.ctxs[c].obj, obj);
      ImgKept(base, s4, Now(), {c}, base.ctxs[c].slots, slots);
    }

    method TravContext(arg: Arg, ctx: Ptr)
      requires Ready(arg) && IsContext(base.ctxs, base.reach, ctx)
      modifies this`mem, this`ctxs, this`org, this`heap1, this`heap2, this`stuid, this`wbObj
      ensures Ready(arg) && wbObj == old(wbObj)
      ensures Step(base, old(Now()), Now(), {}) && Settled(base, Now(), ctx)
      decreases Todo(base, Now()), 3
    {
      hide Inv, Step, Start, Todo, ImgContext;
      ghost var s0 := Now();
      StepRefl(base, s0);
      if ctx != 0 {
        ContextFacts(base, s0, ctx);
      }
      var c := ctx;
      ghost var last: Ptr := 0;   // the context whose `prev` is `c`
      while c != 0
        invariant Ready(arg) && wbObj == old(wbObj) && IsContext(base.ctxs, base.reach, c)
        invariant Todo(base, Now()) <= Todo(base, s0)
        invariant InChain(base, s0, Now(), last, c) && (if last == 0 then c == ctx else Settled(base, Now(), ctx))
        invariant c != 0 ==> c in base.rank
        decreases if c == 0 then 0 else base.rank[c] + 1
      {
        ghost var s1 := Now();
        ContextFacts(base, s1, c);
        if ctxs[c].gen > arg.gen && !ctxs[c].wb {
          break;
        }
        TravSingleContext(arg, c);
        ChainStep(base, s0, s1, Now(), last, c);
        if last != 0 {
          SettledKept(base, s1, Now(), {c}, ctx);
        }
        last := c;
        c := ctxs[c].prev;
      }
      ChainEnd(base, s0, Now(), last, c);
    }

    // -------------------------------------------------------------------------
    // Roots

    method TravCoro(arg: Arg, k: nat)
      requires Ready(arg) && k < |coros| && (coros[k].cid == arg.cid || WfCoro(base.mem, base.ctxs, base.reach, coros[k]))
      modifies this`mem, this`ctxs, this`org, this`heap1, this`heap2, this`stuid, this`wbObj, this`coros
      ensures Ready(arg) && wbObj == old(wbObj) && Step(base, old(Now()), Now(), {})
      ensures |coros| == |old(coros)| && coros == old(coros)[k := coros[k]]
      ensures if old(coros[k]).cid == arg.cid then coros[k] == old(coros[k])
              else ImgCoro(base, Now(), old(coros[k]), coros[k])
    {
      hide Inv, Step, Start, Img, Settled, IsObject, IsContext;
      ghost var s0 := Now();
      StepRefl(base, s0);
      if coros[k].cid == arg.cid {
        return;
      }
      ghost var o := coros[k];
      coros := coros[k := coros[k].(wb := false, cid := arg.cid)];
      var v := CopyObject(arg, coros[k].exitv);
      ghost var s1 := Now();
      StepRefl(base, s1);
      coros := coros[k := coros[k].(exitv := v)];
      var i := 0;
      while i < |coros[k].stack|
        invariant Ready(arg) && wbObj == old(wbObj)
        invariant Step(base, s0, Now(), {}) && Step(base, s1, Now(), {})
        invariant |coros| == |old(coros)| && coros == old(coros)[k := coros[k]]
        invariant coros[k] == o.(wb := false, cid := arg.cid, exitv := v, stack := coros[k].stack)
        invariant 0 <= i <= |coros[k].stack| == |o.stack|
        invariant forall j | 0 <= j < i :: Img(base, Now(), o.stack[j], coros[k].stack[j])
        invariant forall j | i <= j < |o.stack| :: coros[k].stack[j] == o.stack[j]
      {
        ghost var s2 := Now();
        var q := CopyObject(arg, coros[k].stack[i]);
        StepTrans(base, s0, s2, Now(), {}, {}, {});
        StepTrans(base, s1, s2, Now(), {}, {}, {});
        forall j | 0 <= j < i ensures Img(base, Now(), o.stack[j], coros[k].stack[j]) {
          ImgKept(base, s2, Now(), {}, o.stack[j], coros[k].stack[j]);
        }
        coros := coros[k := coros[k].(stack := coros[k].stack[i := q])];
        i := i + 1;
      }
      ghost var s3 := Now();
      ImgKept(base, s1, s3, {}, o.exitv, v);
      TravFrames(arg, coros[k].frames);
      StepTrans(base, s0, s3, Now(), {}, {}, {});
      ImgKept(base, s3, Now(), {}, o.exitv, v);
      ImgSeqKept(base, s3, Now(), {}, o.stack, coros[k].stack);
    }

    method TravFrames(arg: Arg, frames: seq<Ptr>)
      requires Ready(arg) && forall i | 0 <= i < |frames| :: IsContext(base.ctxs, base.reach, frames[i])
      modifies this`mem, this`ctxs, this`org, this`heap1, this`heap2, this`stuid, this`wbObj
      ensures Ready(arg) && wbObj == old(wbObj)
      ensures Step(base, old(Now()), Now(), {}) && AllSettled(base, Now(), frames)
    {
      hide Inv, Step, Start, Settled, IsContext;
      ghost var s0 := Now();
      StepRefl(base, s0);
      var i := 0;
      while i < |frames|
        invariant Ready(arg) && wbObj == old(wbObj) && Step(base, s0, Now(), {})
        invariant 0 <= i <= |frames| && AllSettled(base, Now(), frames[..i])
      {
        ghost var s1 := Now();
        TravContext(arg, frames[i]);
        StepTrans(base, s0, s1, Now(), {}, {}, {});
        AllSettledKept(base, s1, Now(), {}, frames[..i]);
        assert frames[..i + 1] == frames[..i] + [frames[i]];
        i := i + 1;
      }
      assert frames[..i] == frames;
    }

    /** The prototypes of the built-in types and of the type pool. */
    method TravTypes(arg: Arg)
      requires Ready(arg) && forall i | 0 <= i < |protos| :: IsObject(base.mem, base.reach, protos[i])
      modifies this`mem, this`ctxs, this`org, this`heap1, this`heap2, this`stuid, this`wbObj, this`protos
      ensures Ready(arg) && wbObj == old(wbObj)
      ensures Step(base, old(Now()), Now(), {}) && ImgSeq(base, Now(), old(protos), protos)
    {
      hide Inv, Step, Start, Img, IsObject;
      ghost var s0 := Now();
      StepRefl(base, s0);
      ghost var o := protos;
      var i := 0;
      while i < |protos|
        invariant Ready(arg) && wbObj == old(wbObj) && Step(base, s0, Now(), {})
        invariant 0 <= i <= |protos| == |o|
        invariant forall j | 0 <= j < i :: Img(base, Now(), o[j], protos[j])
        invariant forall j | i <= j < |o| :: protos[j] == o[j]
      {
        ghost var s1 := Now();
        var q := CopyObject(arg, protos[i]);
        StepTrans(base, s0, s1, Now(), {}, {}, {});
        forall j | 0 <= j < i ensures Img(base, Now(), o[j], protos[j]) {
          ImgKept(base, s1, Now(), {}, o[j], protos[j]);
        }
        protos := protos[i := q];
        i := i + 1;
      }
    }

    ghost function RootSet(): Roots reads this { Roots(coros, protos, except, loaded, none) }

    method TravCoros(arg: Arg)
      requires Ready(arg) && forall k | 0 <= k < |coros| :: WfCoro(base.mem, base.ctxs, base.reach, coros[k])
      requires forall k | 0 <= k < |coros| :: coros[k].cid != arg.cid
      modifies this`mem, this`ctxs, this`org, this`heap1, this`heap2, this`stuid, this`wbObj, this`coros
      ensures Ready(arg) && wbObj == old(wbObj) && Step(base, old(Now()), Now(), {})
      ensures |coros| == |old(coros)| && ImgCoros(base, Now(), old(coros), coros, |coros|)
    {
      hide Inv, Step, Start, ImgCoro, WfCoro;
      ghost var s0 := Now();
      ghost var o := coros;
      StepRefl(base, s0);
      var k := 0;
      while k < |coros|
        invariant Ready(arg) && wbObj == old(wbObj) && Step(base, s0, Now(), {})
        invariant 0 <= k <= |coros| == |o| && ImgCoros(base, Now(), o, coros, k)
        invariant forall j | k <= j < |o| :: coros[j] == o[j]
      {
        ghost var s1, c1 := Now(), coros;
        TravCoro(arg, k);
        StepTrans(base, s0, s1, Now(), {}, {}, {});
        ImgCorosKept(base, s1, Now(), {}, o, c1, k);
        k := k + 1;
      }
    }

    method TravState(arg: Arg)
      requires Ready(arg) && WfRoots(base.mem, base.ctxs, base.reach, RootSet())
      requires forall k | 0 <= k < |coros| :: coros[k].cid != arg.cid
      modifies this`mem, this`ctxs, this`org, this`heap1, this`heap2, this`stuid, this`wbObj
      modifies this`coros, this`protos, this`except, this`loaded, this`none
      ensures Ready(arg) && wbObj == old(wbObj)
      ensures Step(base, old(Now()), Now(), {}) && ImgRoots(base, Now(), old(RootSet()), RootSet())
    {
      hide Inv, Step, Start, Img, IsObject, ImgCoros, ImgSeq, WfCoro;
      ghost var s1 := Now();
      TravCoros(arg);
      ghost var s2 := Now();
      TravTypes(arg);
      ghost var s3 := Now();
      except := CopyObject(arg, except);
      ghost var s4 := Now();
      loaded := CopyObject(arg, loaded);
      ghost var s5 := Now();
      none := CopyObject(arg, none);
      ghost var s6 := Now();
      StepTrans(base, s4, s5, s6, {}, {}, {});
      StepTrans(base, s3, s4, s6, {}, {}, {});
      StepTrans(base, s2, s3, s6, {}, {}, {});
      StepTrans(base, s1, s2, s6, {}, {}, {});
      ImgCorosKept(base, s2, s6, {}, old(coros), coros, |coros|);
      ImgSeqKept(base, s3, s6, {}, old(protos), protos);
      ImgKept(base, s4, s6, {}, old(except), except);
      ImgKept(base, s5, s6, {}, old(loaded), loaded);
    }

    // -------------------------------------------------------------------------
    // Reference counts of contexts

    /** Gives up one reference to `c`; a context nobody refers to any more goes, and
        gives up its reference to the enclosing scope in turn. */
    method ContextFree(c: Ptr, ghost h: Holding, ghost listed: set<Ptr>) returns (ghost left: Holding)
      requires HeldClosed(h, listed) && Counted(h, refs, listed, c) && Held(h, c)
      requires forall d | d in h.scopes :: d in ctxs && d in h.ctxs && ctxs[d].prev == h.ctxs[d].prev
      modifies this`refs
      ensures left == h.(scopes := left.scopes) && left.scopes <= h.scopes && GaveUp(h, left, old(refs), refs, c, 0)
      ensures HeldClosed(left, listed) && Counted(left, refs, listed, 0)
      ensures AllHeld(h.scopes, old(refs)) ==> AllHeld(left.scopes, refs)
      ensures c in h.scopes && c in old(refs) && old(refs[c]) == 1 ==> c !in left.scopes
    {
      hide HeldClosed, Counted, Holders, GaveUp, AllHeld;
      left := h;
      CountsNatural(h, refs, listed, c);
      NullNotHeld(h, listed);
      GaveNothing(h, refs, c);
      var x := c;
      while x != 0
        invariant left == h.(scopes := left.scopes) && GaveUp(h, left, old(refs), refs, c, x)
        invariant HeldClosed(left, listed) && Counted(left, refs, listed, x) && Held(left, x) && left.scopes <= h.scopes
        decreases left.scopes
      {
        CountsNatural(left, refs, listed, x);
        if refs[x] == 1 {
          Release(left, refs, listed, x);
          ReleasedApart(left, refs, listed, x);
          GaveLast(h, left, old(refs), refs, c, x);
          SpendLast(left.(scopes := left.scopes - {x}), refs, listed, x, ctxs[x].prev);
        } else {
          GaveOne(h, left, old(refs), refs, c, x);
          Spend(left, refs, listed, x);
        }
        refs := refs[x := refs[x] - 1];
        if refs[x] != 0 {
          CountsNatural(left, refs, listed, 0);
          FreedHeld(h, left, old(refs), refs, c);
          return;
        }
        left := left.(scopes := left.scopes - {x});
        x := ctxs[x].prev;
      }
      CountsNatural(left, refs, listed, 0);
      FreedHeld(h, left, old(refs), refs, c);
    }

    // -------------------------------------------------------------------------
    // Remembered sets

    /** An old object that may point into the nursery: it stays, its pointers do not. */
    method CopyObjectNG(arg: Arg, a: Ptr)
      requires Ready(arg) && a in base.mem && a in base.reach && !Moves(base, a) && base.mem[a].body.Object?
      requires a in mem && mem[a] == base.mem[a]
      modifies this`mem, this`ctxs, this`org, this`heap1, this`heap2, this`stuid, this`wbObj
      ensures Ready(arg) && wbObj == old(wbObj)
      ensures Step(base, old(Now()), Now(), {a}) && a in mem && ImgBody(base, Now(), base.mem[a].body, mem[a].body) && !mem[a].wb
    {
      hide Inv, Step, Start, ImgBody, WfBody;
      ghost var s0 := Now();
      NodeFacts(base, s0, a);
      Rewrite(base, s0, a, mem[a].(wb := false));
      mem := mem[a := mem[a].(wb := false)];
      ghost var s1 := Now();
      ForwardFields(arg, a, base.mem[a].body);
      StepTrans(base, s0, s1, Now(), {a}, {a}, {a});
    }

    method CopySlotTableNG(arg: Arg, a: Ptr)
      requires Ready(arg) && a in base.mem && a in base.reach && !Moves(base, a) && base.mem[a].body.Table?
      requires a in mem && mem[a] == base.mem[a]
      modifies this`mem, this`ctxs, this`org, this`heap1, this`heap2, this`stuid, this`wbObj
      ensures Ready(arg) && wbObj == old(wbObj)
      ensures Step(base, old(Now()), Now(), {a}) && a in mem && ImgBody(base, Now(), base.mem[a].body, mem[a].body) && !mem[a].wb
    {
      hide Inv, Step, Start, ImgBody, WfBody;
      ghost var s0 := Now();
      NodeFacts(base, s0, a);
      Rewrite(base, s0, a, mem[a].(wb := false));
      mem := mem[a := mem[a].(wb := false)];
      ghost var s1 := Now();
      ForwardEntries(arg, a, base.mem[a].body);
      StepTrans(base, s0, s1, Now(), {a}, {a}, {a});
    }

    method CheckObjects(arg: Arg, ghost done: set<Ptr>)
      requires Ready(arg) && Remaining(base, Now(), done) && NoDup(wbObj)
      requires forall a | a in wbObj ::
        a in base.mem && a in base.reach && !Moves(base, a) && base.mem[a].body.Object? && a !in done
      modifies this`mem, this`ctxs, this`org, this`heap1, this`heap2, this`stuid, this`wbObj
      ensures Ready(arg) && wbObj == []
      ensures Step(base, old(Now()), Now(), ToSet(old(wbObj))) && Remaining(base, Now(), done + ToSet(old(wbObj)))
    {
      hide Inv, Step, Start, ImgBody;
      ghost var s0, list := Now(), wbObj;
      StepRefl(base, s0);
      assert ToSet(list[..0]) == {} && done + {} == done;
      var i := 0;
      while i < |wbObj|
        invariant Ready(arg) && wbObj == list && 0 <= i <= |list|
        invariant Step(base, s0, Now(), ToSet(list[..i])) && Remaining(base, Now(), done + ToSet(list[..i]))
      {
        ghost var s1 := Now();
        ghost var a := list[i];
        assert a in list && a !in list[..i];
        CopyObjectNG(arg, wbObj[i]);
        RemainingMore(base, s1, Now(), done + ToSet(list[..i]), a);
        assert list[..i + 1] == list[..i] + [a];
        assert ToSet(list[..i + 1]) == ToSet(list[..i]) + {a};
        assert done + ToSet(list[..i]) + {a} == done + ToSet(list[..i + 1]);
        StepTrans(base, s0, s1, Now(), ToSet(list[..i]), {a}, ToSet(list[..i + 1]));
        i := i + 1;
      }
      assert list[..i] == list;
      wbObj := [];
    }

    method CheckSlots(arg: Arg, ghost done: set<Ptr>)
      requires Ready(arg) && Remaining(base, Now(), done) && NoDup(wbSlot)
      requires forall a | a in wbSlot ::
        a in base.mem && a in base.reach && !Moves(base, a) && base.mem[a].body.Table? && a !in done
      modifies this`mem, this`ctxs, this`org, this`heap1, this`heap2, this`stuid, this`wbObj, this`wbSlot
      ensures Ready(arg) && wbObj == old(wbObj) && wbSlot == []
      ensures Step(base, old(Now()), Now(), ToSet(old(wbSlot))) && Remaining(base, Now(), done + ToSet(old(wbSlot)))
    {
      hide Inv, Step, Start, ImgBody;
      ghost var s0, list := Now(), wbSlot;
      StepRefl(base, s0);
      assert ToSet(list[..0]) == {} && done + {} == done;
      var i := 0;
      while i < |wbSlot|
        invariant Ready(arg) && wbObj == old(wbObj) && wbSlot == list && 0 <= i <= |list|
        invariant Step(base, s0, Now(), ToSet(list[..i])) && Remaining(base, Now(), done + ToSet(list[..i]))
      {
        ghost var s1 := Now();
        ghost var a := list[i];
        assert a in list && a !in list[..i];
        CopySlotTableNG(arg, wbSlot[i]);
        RemainingMore(base, s1, Now(), done + ToSet(list[..i]), a);
        assert list[..i + 1] == list[..i] + [a];
        assert ToSet(list[..i + 1]) == ToSet(list[..i]) + {a};
        assert done + ToSet(list[..i]) + {a} == done + ToSet(list[..i + 1]);
        StepTrans(base, s0, s1, Now(), ToSet(list[..i]), {a}, ToSet(list[..i + 1]));
        i := i + 1;
      }
      assert list[..i] == list;
      wbSlot := [];
    }

    /** A context is taken off the list, which gives up the reference of the list. */
    method Unremember(c: Ptr, ghost h: Holding, ghost listed: set<Ptr>, ghost before: set<Ptr>) returns (ghost left: Holding)
      requires HeldClosed(h, listed) && Counted(h, refs, listed, 0) && AllHeld(h.scopes, refs) && c in listed
      requires forall d | d in h.scopes :: d in ctxs && d in h.ctxs && ctxs[d].prev == h.ctxs[d].prev
      requires KeptOrFreed(before, h.scopes, refs)
      modifies this`refs
      ensures left == h.(scopes := left.scopes) && left.scopes <= h.scopes && KeptOrFreed(before, left.scopes, refs)
      ensures HeldClosed(left, listed - {c}) && Counted(left, refs, listed - {c}, 0) && AllHeld(left.scopes, refs)
      ensures c in old(refs) && old(refs[c]) == 1 ==> c !in left.scopes
    {
      NullNotHeld(h, listed);
      Unlist(h, refs, listed, c);
      assert Held(h, c);
      hide HeldClosed, Counted, AllHeld, GaveUp, KeptOrFreed;
      left := ContextFree(c, h, listed - {c});
      FreedMore(before, h, left, old(refs), refs, c);
    }

    /** Old contexts that may point into the nursery.  One that only this list refers
        to is not visited. */
    method CheckContexts(arg: Arg, ghost h: Holding, ghost before: set<Ptr>) returns (ghost left: Holding)
      requires Ready(arg) && h.ctxs == base.ctxs && NoDup(wbCtx)
      requires forall c | c in wbCtx :: c in base.ctxs && (arg.gen == 0 ==> c in base.reach)
      requires HeldClosed(h, ToSet(wbCtx)) && Counted(h, refs, ToSet(wbCtx), 0) && AllHeld(h.scopes, refs) && KeptOrFreed(before, h.scopes, refs)
      modifies this`mem, this`ctxs, this`org, this`heap1, this`heap2, this`stuid, this`wbObj, this`wbCtx, this`refs
      ensures Ready(arg) && wbObj == old(wbObj) && wbCtx == []
      ensures Step(base, old(Now()), Now(), {})
      ensures left == h.(scopes := left.scopes) && left.scopes <= h.scopes
      ensures HeldClosed(left, {}) && Counted(left, refs, {}, 0) && AllHeld(left.scopes, refs) && KeptOrFreed(before, left.scopes, refs)
      ensures arg.gen == 0 ==> forall c | c in old(wbCtx) :: c !in left.scopes || Settled(base, Now(), c)
    {
      hide Inv, Step, Start, HeldClosed, Counted, Settled, AllHeld, KeptOrFreed;
      ghost var s0, list := Now(), wbCtx;
      StepRefl(base, s0);
      left := h;
      assert list[0..] == list;
      var i := 0;
      while i < |wbCtx|
        invariant Ready(arg) && wbObj == old(wbObj) && wbCtx == list && 0 <= i <= |list|
        invariant Step(base, s0, Now(), {})
        invariant left == h.(scopes := left.scopes) && left.scopes <= h.scopes && KeptOrFreed(before, left.scopes, refs)
        invariant HeldClosed(left, ToSet(list[i..])) && Counted(left, refs, ToSet(list[i..]), 0) && AllHeld(left.scopes, refs)
        invariant arg.gen == 0 ==> forall j | 0 <= j < i :: list[j] !in left.scopes || Settled(base, Now(), list[j])
      {
        ghost var s1, l1 := Now(), left;
        ghost var c := list[i];
        assert c in list;
        ScopeFacts(base, Now(), left, refs, ToSet(list[i..]), 0);
        if arg.gen == 0 {
          if refs[wbCtx[i]] != 1 {
            TravContext(arg, wbCtx[i]);
            StepTrans(base, s0, s1, Now(), {}, {}, {});
            forall j | 0 <= j < i && Settled(base, s1, list[j]) ensures Settled(base, Now(), list[j]) {
              SettledKept(base, s1, Now(), {}, list[j]);
            }
          }
        }
        ScopeFacts(base, Now(), left, refs, ToSet(list[i..]), 0);
        assert ToSet(list[i..]) - {c} == ToSet(list[i + 1..]);
        left := Unremember(wbCtx[i], left, ToSet(list[i..]), before);
        i := i + 1;
      }
      assert ToSet(list[i..]) == {};
      wbCtx := [];
    }

    /** Every coroutine has been visited by now, so the list adds nothing. */
    method CheckCoros(arg: Arg)
      requires Ready(arg) && forall k | 0 <= k < |coros| :: coros[k].cid == arg.cid
      requires forall k | k in wbCoro :: k < |coros|
      modifies this`mem, this`ctxs, this`org, this`heap1, this`heap2, this`stuid, this`wbObj, this`coros, this`wbCoro
      ensures Ready(arg) && wbObj == old(wbObj) && wbCoro == [] && coros == old(coros)
      ensures Step(base, old(Now()), Now(), {})
    {
      hide Inv, Step, Start;
      ghost var s0 := Now();
      StepRefl(base, s0);
      var i := 0;
      while i < |wbCoro|
        invariant Ready(arg) && wbObj == old(wbObj) && wbCoro == old(wbCoro) && coros == old(coros)
        invariant 0 <= i <= |wbCoro| && Step(base, s0, Now(), {})
      {
        ghost var s1 := Now();
        assert wbCoro[i] in wbCoro;
        TravCoro(arg, wbCoro[i]);
        StepTrans(base, s0, s1, Now(), {}, {}, {});
        i := i + 1;
      }
      wbCoro := [];
    }

    ghost function WbLists(): Lists reads this { Lists(wbObj, wbSlot, wbCtx) }

    /** The nodes among them: old ones, so only a partial collection looks at them. */
    method CheckNodes(arg: Arg)
      requires Ready(arg) && Remaining(base, Now(), {}) && ListsReady(base, WbLists())
      modifies this`mem, this`ctxs, this`org, this`heap1, this`heap2, this`stuid, this`wbObj, this`wbSlot
      ensures Ready(arg) && wbObj == [] && wbSlot == []
      ensures Step(base, old(Now()), Now(), Listed(base, old(WbLists()))) && Remaining(base, Now(), Listed(base, old(WbLists())))
    {
      hide Inv, Step, Start, Settled, Remaining, Moves;
      ghost var s0 := Now();
      StepRefl(base, s0);
      if arg.gen == 0 {
        CheckObjects(arg, {});
        ghost var s1 := Now();
        assert {} + ToSet(old(wbObj)) == ToSet(old(wbObj));
        CheckSlots(arg, ToSet(old(wbObj)));
        StepTrans(base, s0, s1, Now(), ToSet(old(wbObj)), ToSet(old(wbSlot)), Listed(base, old(WbLists())));
      } else {
        wbObj := [];
        wbSlot := [];
      }
    }

    method CheckWriteBarrier(arg: Arg, ghost h: Holding, ghost before: set<Ptr>) returns (ghost left: Holding)
      requires Ready(arg) && Remaining(base, Now(), {}) && ListsReady(base, WbLists())
      requires h.ctxs == base.ctxs && HeldClosed(h, ToSet(wbCtx)) && Counted(h, refs, ToSet(wbCtx), 0) && AllHeld(h.scopes, refs) && KeptOrFreed(before, h.scopes, refs)
      requires forall k | 0 <= k < |coros| :: coros[k].cid == arg.cid
      requires forall k | k in wbCoro :: k < |coros|
      modifies this`mem, this`ctxs, this`org, this`heap1, this`heap2, this`stuid
      modifies this`wbObj, this`wbSlot, this`wbCtx, this`wbCoro, this`refs, this`coros
      ensures Ready(arg) && wbObj == [] && wbSlot == [] && wbCtx == [] && wbCoro == [] && coros == old(coros)
      ensures Step(base, old(Now()), Now(), Listed(base, old(WbLists())))
      ensures Remaining(base, Now(), Listed(base, old(WbLists())))
      ensures left == h.(scopes := left.scopes) && left.scopes <= h.scopes
      ensures HeldClosed(left, {}) && Counted(left, refs, {}, 0) && AllHeld(left.scopes, refs) && KeptOrFreed(before, left.scopes, refs)
      ensures arg.gen == 0 ==> forall c | c in old(wbCtx) :: c !in left.scopes || Settled(base, Now(), c)
    {
      hide Inv, Step, Start, HeldClosed, Counted, Settled, Remaining, Moves, Listed, AllHeld, KeptOrFreed;
      ghost var s0, done := Now(), Listed(base, WbLists());
      CheckNodes(arg);
      ghost var s2 := Now();
      left := CheckContexts(arg, h, before);
      ghost var s3 := Now();
      CheckCoros(arg);
      RemainingKept(base, s2, s3, done);
      RemainingKept(base, s3, Now(), done);
      StepTrans(base, s0, s2, s3, done, {}, done);
      StepTrans(base, s0, s3, Now(), done, {}, done);
      if arg.gen == 0 {
        forall c | c in old(wbCtx) && c in left.scopes ensures Settled(base, Now(), c) {
          SettledKept(base, s3, Now(), {}, c);
        }
      }
    }

    // -------------------------------------------------------------------------
    // Destructors

    /** Runs the destructors of the dead, which for a function object gives up its
        scope, and keeps the rest of the log under the new addresses. */
    method TriggerDestructor(arg: Arg, ghost h: Holding, ghost before: set<Ptr>) returns (ghost left: Holding)
      requires Ready(arg) && h.mem == base.mem && h.ctxs == base.ctxs && h.closures == base.mem.Keys
      requires HeldClosed(h, {}) && Counted(h, refs, {}, 0) && AllHeld(h.scopes, refs) && KeptOrFreed(before, h.scopes, refs)
      requires NoDup(log) && forall a | a in log :: a in base.mem && base.mem[a].body.Object?
      modifies this`log, this`destructed, this`refs
      ensures log == LogAfter(base, Now(), old(log)) && destructed == old(destructed) + DeadIds(base, Now(), old(log))
      ensures left.mem == h.mem && left.ctxs == h.ctxs && left.coros == h.coros && left.scopes <= h.scopes
      ensures left.closures == base.mem.Keys - (set a | a in old(log) && Dead(base, Now(), a))
      ensures HeldClosed(left, {}) && Counted(left, refs, {}, 0) && AllHeld(left.scopes, refs) && KeptOrFreed(before, left.scopes, refs)
    {
      hide Inv, Start, HeldClosed, Counted, Moves, LogAfter, DeadIds, Dead, Moved, Ren, AllHeld, GaveUp, KeptOrFreed;
      ghost var s, list := Now(), log;
      left := h;
      var log1 := [];
      var i := 0;
      LogNone(base, s, list[..0]);
      while i < |log|
        invariant log == list && 0 <= i <= |list|
        invariant log1 == LogAfter(base, s, list[..i]) && destructed == old(destructed) + DeadIds(base, s, list[..i])
        invariant left.mem == h.mem && left.ctxs == h.ctxs && left.coros == h.coros && left.scopes <= h.scopes
        invariant left.closures == base.mem.Keys - (set a | a in list[..i] && Dead(base, s, a))
        invariant HeldClosed(left, {}) && Counted(left, refs, {}, 0) && AllHeld(left.scopes, refs) && KeptOrFreed(before, left.scopes, refs)
      {
        var obj := log[i];
        assert obj in list && obj !in list[..i];
        LogNext(base, s, list, i);
        LoggedFacts(base, s, obj);
        if mem[obj].copy == 0 {
          if mem[obj].gen <= arg.gen {
            destructed := destructed + [mem[obj].body.id];
            DropClosure(left, refs, {}, obj);
            left := left.(closures := left.closures - {obj});
            ScopeFacts(base, s, left, refs, {}, left.mem[obj].body.scope);
            ghost var l1, refs1 := left, refs;
            left := ContextFree(mem[obj].body.scope, left, {});
            FreedMore(before, l1, left, refs1, refs, mem[obj].body.scope);
          } else {
            log1 := log1 + [obj];
          }
        } else {
          log1 := log1 + [mem[obj].copy];
        }
        i := i + 1;
      }
      assert list[..i] == list;
      log := log1;
    }

    // -------------------------------------------------------------------------
    // The whole collection

    ghost function Live(): set<Ptr> reads this { mem.Keys + liveCtx }

    ghost function Holders0(): Holding reads this { Holding(mem, mem.Keys, ctxs, liveCtx, coros) }

    /** What holds between any two operations. */
    ghost predicate Valid()
      reads this
    {
      && HeapsSound(mem, heap0, heap1, heap2)
      && IdsSound(ctxs, liveCtx, coros, wbCoro, gen, cid)
      && Sound(mem, ctxs, liveCtx, rank, RootSet(), WbLists(), refs, log, destructed)
      && Uids(mem, stuid)
    }

    /** The traversal: from the roots and from the remembered sets. */
    method TraceGraph(arg: Arg, ghost h: Holding) returns (ghost left: Holding)
      requires Ready(arg) && Now() == First(base) && WfRoots(base.mem, base.ctxs, base.reach, RootSet())
      requires forall k | 0 <= k < |coros| :: coros[k].cid != arg.cid
      requires forall k | k in wbCoro :: k < |coros|
      requires ListsReady(base, WbLists()) && h.ctxs == base.ctxs
      requires HeldClosed(h, ToSet(wbCtx)) && Counted(h, refs, ToSet(wbCtx), 0) && AllHeld(h.scopes, refs)
      modifies this`mem, this`ctxs, this`org, this`heap1, this`heap2, this`stuid
      modifies this`coros, this`protos, this`except, this`loaded, this`none
      modifies this`wbObj, this`wbSlot, this`wbCtx, this`wbCoro, this`refs
      ensures Ready(arg) && wbObj == [] && wbSlot == [] && wbCtx == [] && wbCoro == []
      ensures Step(base, First(base), Now(), Listed(base, old(WbLists())))
      ensures Remaining(base, Now(), Listed(base, old(WbLists())))
      ensures ImgRoots(base, Now(), old(RootSet()), RootSet())
      ensures |coros| == |old(coros)| && forall k | 0 <= k < |coros| :: coros[k].frames == old(coros)[k].frames
      ensures left == h.(scopes := left.scopes) && left.scopes <= h.scopes
      ensures HeldClosed(left, {}) && Counted(left, refs, {}, 0) && AllHeld(left.scopes, refs) && KeptOrFreed(h.scopes, left.scopes, refs)
      ensures arg.gen == 0 ==> forall c | c in old(wbCtx) :: c !in left.scopes || Settled(base, Now(), c)
    {
      hide Inv, Step, Start, HeldClosed, Counted, Remaining, Moves, ListsReady, ImgCoro, Img, ImgSeq, WfRoots, Settled, Listed, ToSet, AllHeld;
      ghost var b, s0, r0, done := base, Now(), RootSet(), Listed(base, WbLists());
      FirstInv(b);
      TravState(arg);
      ghost var s1, r1 := Now(), RootSet();
      RemainingKept(b, s0, s1, {});
      CorosVisited(b, s1, r0.coros, coros);
      left := CheckWriteBarrier(arg, h, h.scopes);
      StepTrans(b, s0, s1, Now(), {}, done, done);
      ImgRootsKept(b, s1, Now(), done, r0, r1);
    }

    /** What a traversal starts from: nothing has been done yet, and the remembered sets
        cover what they have to. */
    ghost predicate Begun(arg: Arg, b: Base, l0: Lists, r0: Roots, scopes0: set<Ptr>, log0: seq<Ptr>, des0: seq<nat>)
      reads this
    {
      && b == base && l0 == WbLists() && r0 == RootSet() && log0 == log && des0 == destructed
      && Ready(arg) && Now() == First(b) && WfRoots(b.mem, b.ctxs, b.reach, r0)
      && (forall k | 0 <= k < |coros| :: coros[k].cid != arg.cid)
      && (forall k | k in wbCoro :: k < |coros|)
      && ListsReady(b, l0)
      && HeldClosed(Holding(b.mem, b.mem.Keys, b.ctxs, scopes0, coros), ToSet(wbCtx))
      && Counted(Holding(b.mem, b.mem.Keys, b.ctxs, scopes0, coros), refs, ToSet(wbCtx), 0)
      && Remembered(b.mem, b.ctxs, scopes0, l0)
      && (b.gen == 0 ==> b.mem.Keys <= b.reach && scopes0 <= b.reach)
      && (forall c | c in scopes0 && c in b.ctxs :: b.ctxs[c].gen <= 1)
      && LogOk(b.mem, log0, des0) && ScopesLogged(b.mem, log0)
      && AllHeld(scopes0, refs) && Ranked(b.ctxs, scopes0, b.rank) && scopes0 <= b.ctxs.Keys
    }

    /** The traversal, then the destructors of what it did not reach. */
    method Trace(arg: Arg, ghost b: Base, ghost l0: Lists, ghost r0: Roots, ghost scopes0: set<Ptr>, ghost log0: seq<Ptr>, ghost des0: seq<nat>)
      returns (ghost held: set<Ptr>)
      requires Begun(arg, b, l0, r0, scopes0, log0, des0)
      modifies this`mem, this`ctxs, this`org, this`heap1, this`heap2, this`stuid
      modifies this`coros, this`protos, this`except, this`loaded, this`none
      modifies this`wbObj, this`wbSlot, this`wbCtx, this`wbCoro, this`refs, this`log, this`destructed
      ensures Ready(arg) && wbObj == [] && wbSlot == [] && wbCtx == [] && wbCoro == []
      ensures Traversed(b, Now(), held, scopes0, l0, Listed(b, l0)) && ImgRoots(b, Now(), r0, RootSet())
      ensures FramesHeld(r0.coros, held)
      ensures log == LogAfter(b, Now(), log0) && destructed == des0 + DeadIds(b, Now(), log0)
      ensures Counted(Holding(Survivors(b, Now()), Survivors(b, Now()).Keys, ctxs, Scopes(b, Now(), held), coros), refs, {}, 0)
      ensures Scopes(b, Now(), held) == held && AllHeld(held, refs) && KeptOrFreed(scopes0, held, refs)
    {
      hide Inv, Step, Start, HeldClosed, Counted, Remaining, Moves, ListsReady, Remembered, ImgRoots, WfRoots, LogOk, Complete,
        Settled, Listed, ToSet, Traversed, FramesHeld, LogAfter, DeadIds, Survivors, Scopes, ScopesHeld, ScopesLogged, AllHeld, Dead, Ranked, KeptOrFreed;
      ghost var done := Listed(b, l0);
      LogNoDup(b.mem, log, destructed);
      ListedNodes(b, l0);
      ghost var left := TraceGraph(arg, Holding(b.mem, b.mem.Keys, b.ctxs, scopes0, coros));
      ghost var s := Now();
      ghost var last := TriggerDestructor(arg, left, scopes0);
      held := last.scopes;
      HeldAfter(b, s, last, log0);
      MakeTraversed(b, s, held, scopes0, l0, done);
      TraversedComplete(b, s, held, scopes0, l0, done);
      FramesSettled(b, s, r0, RootSet());
      RankedSubset(b.ctxs, scopes0, held, b.rank);
      NoneForgotten(b, s, last, refs, log0);
      CountedAfter(b, s, last, refs, log0, coros);
    }

    method HeapReset0()
      modifies this`mem, this`heap0
      ensures mem == Without(old(mem), old(heap0)) && heap0 == {}
    {
      mem := Without(mem, heap0);
      heap0 := {};
    }

    method HeapReset1()
      modifies this`mem, this`heap1
      ensures mem == Without(old(mem), old(heap1)) && heap1 == {}
    {
      mem := Without(mem, heap1);
      heap1 := {};
    }

    method HeapReset2()
      modifies this`mem, this`heap2
      ensures mem == Without(old(mem), old(heap2)) && heap2 == {}
    {
      mem := Without(mem, heap2);
      heap2 := {};
    }

    /** The memory a collection starts with; its goal when everything moves is what
        the roots reach. */
    ghost function BaseNow(): Base
      reads this
    {
      Base(mem, ctxs, gen, cid + 1, stuid, if gen == 1 then ReachSet(mem, ctxs, RootSet()) else Live(), rank)
    }

    /** A valid state is one a collection can start from. */
    lemma CanCollect()
      requires Valid()
      ensures var b := BaseNow();
              && Start(b) && Inv(b, First(b)) && WfRoots(b.mem, b.ctxs, b.reach, RootSet()) && ListsReady(b, WbLists())
              && Remembered(b.mem, b.ctxs, liveCtx, WbLists()) && LogOk(b.mem, log, destructed)
              && HeldClosed(Holders0(), ToSet(wbCtx)) && Counted(Holders0(), refs, ToSet(wbCtx), 0)
              && (b.gen == 0 ==> b.mem.Keys <= b.reach && liveCtx <= b.reach)
      ensures HeapsSound(mem, heap0, heap1, {}) && heap2 == {} && gen <= 1
      ensures (forall c | c in liveCtx && c in ctxs :: ctxs[c].gen <= 1) && liveCtx <= ctxs.Keys
      ensures ScopesLogged(mem, log) && Ranked(ctxs, liveCtx, rank)
      ensures forall c | c in ctxs :: ctxs[c].cid <= cid
      ensures forall k | 0 <= k < |coros| :: coros[k].cid != cid + 1
      ensures forall k | k in wbCoro :: k < |coros|
    {
      hide Inv, Start, HeldClosed, Counted, ListsReady, Remembered, WfRoots, LogOk, ReachSet, Sound, ToSet, Uids;
      BeginCollection(BaseNow(), liveCtx, RootSet(), WbLists(), refs, log, destructed);
    }

    /** A new collection id, and room to copy to. */
    method Prepare(arg: Arg, ghost b: Base)
      requires Start(b) && Inv(b, First(b)) && b == BaseNow() && arg == Arg(b.cid, b.gen) && heap2 == {}
      modifies this`base, this`org, this`kept, this`cid, this`mem, this`heap2
      ensures Ready(arg) && Now() == First(b) && base == b && kept == heap1 && cid == b.cid
    {
      hide Inv, Start, ReachSet, Without;
      cid := cid + 1;
      base, org, kept := b, map[], heap1;
      if arg.gen != 0 {
        WithoutNothing(mem);
        HeapReset2();
      }
    }

    method Begin(arg: Arg, ghost b: Base)
      requires Valid() && AllHeld(liveCtx, refs) && arg == Arg(cid + 1, gen) && b == BaseNow()
      modifies this`base, this`org, this`kept, this`cid, this`mem, this`heap2
      ensures Begun(arg, b, WbLists(), RootSet(), liveCtx, log, destructed)
      ensures cid == b.cid == old(cid) + 1 && gen == b.gen <= 1 && rank == b.rank && HeapsSound(b.mem, heap0, kept, {})
      ensures forall c | c in b.ctxs :: b.ctxs[c].cid <= old(cid)
    {
      hide Inv, Start, HeldClosed, Counted, ListsReady, Remembered, WfRoots, LogOk, ReachSet, Sound, ToSet, HeapsSound, IdsSound, Valid, Without, AllHeld, Uids, ScopesLogged;
      CanCollect();
      Prepare(arg, b);
    }

    /** Everything but giving back the heaps. */
    method Evacuate(arg: Arg, ghost b: Base, ghost l0: Lists, ghost r0: Roots, ghost log0: seq<Ptr>, ghost des0: seq<nat>)
      returns (ghost held: set<Ptr>)
      requires Valid() && AllHeld(liveCtx, refs) && arg == Arg(cid + 1, gen) && b == BaseNow() && l0 == WbLists() && r0 == RootSet()
      requires log0 == log && des0 == destructed
      modifies this
      ensures liveCtx == old(liveCtx) && rank == b.rank && Scopes(b, Now(), held) == held && AllHeld(held, refs) && KeptOrFreed(liveCtx, held, refs)
      ensures base == b && cid == b.cid > 0 && gen == b.gen <= 1 && heap0 == old(heap0) && HeapsSound(b.mem, heap0, kept, {})
      ensures Ready(arg) && wbObj == [] && wbSlot == [] && wbCtx == [] && wbCoro == []
      ensures Over(b, Now(), held, liveCtx, l0, r0, RootSet(), refs, log0, des0)
      ensures log == LogAfter(b, Now(), log0) && destructed == des0 + DeadIds(b, Now(), log0)
    {
      hide Inv, Start, HeldClosed, Counted, ListsReady, Remembered, WfRoots, LogOk, Traversed, ImgRoots, FramesHeld, ReachSet,
        Sound, Listed, LogAfter, DeadIds, Survivors, Scopes, ToSet, HeapsSound, IdsSound, Valid, Without, AllHeld, Uids, ScopesLogged, KeptOrFreed;
      Begin(arg, b);
      BegunFacts(arg, b, l0, r0, liveCtx, log0, des0);
      hide Begun;
      held := Trace(arg, b, l0, r0, liveCtx, log0, des0);
    }

    lemma BegunFacts(arg: Arg, b: Base, l0: Lists, r0: Roots, scopes0: set<Ptr>, log0: seq<Ptr>, des0: seq<nat>)
      requires Begun(arg, b, l0, r0, scopes0, log0, des0)
      ensures base == b && WfRoots(b.mem, b.ctxs, b.reach, r0) && LogOk(b.mem, log0, des0)
    {
      hide Inv, Start, HeldClosed, Counted, ListsReady, Remembered, WfRoots, LogOk, ToSet;
    }

    /** Gives back the heaps that were copied from. */
    method GiveBack(arg: Arg, grew: bool, ghost b: Base, ghost s: Snap, ghost h0: set<Ptr>)
      requires Ready(arg) && b == base && s == Now() && arg.gen == b.gen == gen && h0 == heap0
      requires HeapsSound(b.mem, h0, kept, {})
      modifies this`mem, this`heap0, this`heap1, this`heap2, this`gen
      ensures mem == Survivors(b, s) && heap0 == {} && heap1 == Survivors(b, s).Keys && heap2 == {}
      ensures gen == if b.gen == 0 && grew then 1 else 0
      ensures b.gen == 1 ==> Moved(b, s).Keys <= b.reach && Survivors(b, s).Keys <= Moved(b, s).Values
      ensures b.gen == 0 ==> forall a | a in b.mem && b.mem[a].gen == 1 :: a in Moved(b, s) && Moved(b, s)[a] == a
    {
      assert b.gen <= 1 by { hide Inv, Uids, Closed, Ranked; }
      hide Inv, Start, Survivors, Moved, HeapsSound, Without;
      WhatIsLeft(b, s, h0, kept);
      HeapReset0();
      if arg.gen != 0 {
        HeapReset1();
        heap1, heap2 := heap2, heap1;
        gen := 0;
      } else if grew {
        gen := 1;
      }
    }

    /** What a collection that started from `b` leaves, `phi` being where things are now. */
    ghost predicate Collected(b: Base, r0: Roots, log0: seq<Ptr>, des0: seq<nat>, phi: map<Ptr, Ptr>)
      reads this
    {
      && wbObj == [] && wbSlot == [] && wbCtx == [] && wbCoro == [] && heap0 == {}
      && (forall a | a in mem :: mem[a].gen == 1)
      && Isomorphic(b.mem, b.ctxs, mem, ctxs, phi, liveCtx)
      && RootsMoved(phi, r0, RootSet()) && (forall p | p in RootPtrs(r0) :: Covered(phi, liveCtx, p))
      && (b.gen == 1 ==> phi.Keys + liveCtx <= b.reach && mem.Keys <= phi.Values)
      && (b.gen == 0 ==> forall a | a in b.mem && b.mem[a].gen == 1 :: a in phi && phi[a] == a)
      && LogKept(b.mem, log0, des0, log, destructed, phi)
      && TableIds(b.mem, mem, phi, b.uid)
    }

    lemma MakeCollected(
      b: Base, m: map<Ptr, Node>, cs: map<Ptr, Context>, scopes: set<Ptr>, r0: Roots, r1: Roots, log0: seq<Ptr>, des0: seq<nat>, phi: map<Ptr, Ptr>)
      requires mem == m && ctxs == cs && liveCtx == scopes && RootSet() == r1 && heap0 == {}
      requires wbObj == [] && wbSlot == [] && wbCtx == [] && wbCoro == []
      requires (forall a | a in m :: m[a].gen == 1) && Isomorphic(b.mem, b.ctxs, m, cs, phi, scopes) && RootsMoved(phi, r0, r1)
      requires forall p | p in RootPtrs(r0) :: Covered(phi, scopes, p)
      requires b.gen == 1 ==> phi.Keys <= b.reach && scopes <= b.reach && m.Keys <= phi.Values
      requires b.gen == 0 ==> forall a | a in b.mem && b.mem[a].gen == 1 :: a in phi && phi[a] == a
      requires LogKept(b.mem, log0, des0, log, destructed, phi) && TableIds(b.mem, m, phi, b.uid)
      ensures Collected(b, r0, log0, des0, phi)
    {
      hide Isomorphic, RootsMoved, LogKept, RootPtrs, Covered, TableIds;
    }

    /** A collection that starts from `b`. */
    method Cycle(grew: bool, ghost b: Base, ghost l0: Lists, ghost r0: Roots, ghost log0: seq<Ptr>, ghost des0: seq<nat>)
      returns (ghost phi: map<Ptr, Ptr>)
      requires Valid() && AllHeld(liveCtx, refs) && b == BaseNow() && l0 == WbLists() && r0 == RootSet() && log0 == log && des0 == destructed
      modifies this
      ensures KeptOrFreed(old(liveCtx), liveCtx, refs)
      ensures Valid() && AllHeld(liveCtx, refs) && Collected(b, r0, log0, des0, phi) && gen == if b.gen == 0 && grew then 1 else 0
    {
      hide Inv, Start, Over, LogAfter, DeadIds, Survivors, Scopes, Collected,
        ReachSet, Listed, HeldClosed, ListsReady, Remembered, HeapsSound, IdsSound, Valid, Ready, Sound, Isomorphic, RootsMoved, LogKept,
        RootPtrs, Covered, Moved, Uids, TableIds, AllHeld, KeptOrFreed;
      var arg := Arg(cid + 1, gen);
      ghost var held := Evacuate(arg, b, l0, r0, log0, des0);
      ghost var s, r1 := Now(), RootSet();
      CollectionOver(b, s, held, liveCtx, l0, r0, r1, refs, log0, des0, if b.gen == 0 && grew then 1 else 0);
      GiveBack(arg, grew, b, s, heap0);
      phi, liveCtx := Moved(b, s), Scopes(b, s, held);
      MakeCollected(b, Survivors(b, s), s.ctxs, Scopes(b, s, held), r0, r1, log0, des0, phi);
      MakeValid(Survivors(b, s), s.ctxs, b.rank, r1);
    }

    /** A collection: of everything when `gen` is 1, of the nursery otherwise.  `grew` says
        whether a partial collection made heap 1 start a new block. */
    method Collect(grew: bool) returns (ghost phi: map<Ptr, Ptr>)
      requires Valid() && AllHeld(liveCtx, refs)
      modifies this
      ensures Valid() && AllHeld(liveCtx, refs) && KeptOrFreed(old(liveCtx), liveCtx, refs)
      ensures wbObj == [] && wbSlot == [] && wbCtx == [] && wbCoro == []
      ensures heap0 == {} && forall a | a in mem :: mem[a].gen == 1
      ensures Isomorphic(old(mem), old(ctxs), mem, ctxs, phi, liveCtx)
      ensures RootsMoved(phi, old(RootSet()), RootSet())
      ensures forall p | p in RootPtrs(old(RootSet())) :: Covered(phi, liveCtx, p)
      ensures old(gen) == 1 ==> phi.Keys + liveCtx <= ReachSet(old(mem), old(ctxs), old(RootSet())) && mem.Keys <= phi.Values
      ensures old(gen) == 0 ==> forall a | a in old(mem) && old(mem)[a].gen == 1 :: a in phi && phi[a] == a
      ensures LogKept(old(mem), old(log), old(destructed), log, destructed, phi)
      ensures TableIds(old(mem), mem, phi, old(stuid))
      ensures gen == if old(gen) == 0 && grew then 1 else 0
    {
      hide AllHeld, KeptOrFreed, TableIds, Isomorphic, RootsMoved, LogKept, ReachSet, RootPtrs, Covered, Valid;
      phi := Cycle(grew, BaseNow(), WbLists(), RootSet(), log, destructed);
    }

    lemma MakeValid(m: map<Ptr, Node>, cs: map<Ptr, Context>, rk: map<Ptr, nat>, r: Roots)
      requires mem == m && ctxs == cs && rank == rk && RootSet() == r
      requires wbObj == [] && wbSlot == [] && wbCtx == [] && wbCoro == []
      requires heap0 == {} && heap2 == {} && HeapsSound(m, {}, heap1, {})
      requires IdsSound(cs, liveCtx, r.coros, [], gen, cid)
      requires Sound(m, cs, liveCtx, rk, r, Lists([], [], []), refs, log, destructed) && Uids(m, stuid)
      ensures Valid()
    {
      hide HeapsSound, IdsSound, Sound, Uids;
    }
  }
}
