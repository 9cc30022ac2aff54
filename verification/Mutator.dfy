/** What programs do to the memory between two collections: every operation keeps the
    remembered sets complete, the reference counts high enough and the heaps apart. */
module Mutator {
  import opened GcGraph
  import opened ContextRefs
  import opened GcFinish
  import opened GcUpdate
  import opened Collector

  ghost function WorldOf(st: State): World
    reads st
  {
    World(st.mem, st.ctxs, st.liveCtx, st.rank, st.RootSet(), st.WbLists(), st.refs, st.log, st.destructed)
  }

  /** The parts of a valid state. */
  ghost predicate Valid3(st: State, w: World)
    reads st
  {
    && WorldOf(st) == w && Ok(w)
    && HeapsSound(st.mem, st.heap0, st.heap1, st.heap2)
    && IdsSound(st.ctxs, st.liveCtx, st.coros, st.wbCoro, st.gen, st.cid)
    && Uids(st.mem, st.stuid)
  }

  lemma Parts(st: State)
    ensures st.Valid() <==> Valid3(st, WorldOf(st))
    ensures Valid3(st, WorldOf(st)) <==>
      && Ok(WorldOf(st)) && HeapsSound(st.mem, st.heap0, st.heap1, st.heap2)
      && IdsSound(st.ctxs, st.liveCtx, st.coros, st.wbCoro, st.gen, st.cid) && Uids(st.mem, st.stuid)
  {
    hide HeapsSound, IdsSound, Sound, Uids;
  }

  lemma OkFacts(w: World)
    requires Ok(w)
    ensures Addresses(w.mem, w.ctxs) && w.scopes <= w.ctxs.Keys && Closed(w.mem, w.ctxs, LiveOf(w))
    ensures Remembered(w.mem, w.ctxs, w.scopes, w.lists) && WfRoots(w.mem, w.ctxs, LiveOf(w), w.roots)
    ensures HeldClosed(HoldingOf(w), ToSet(w.lists.scopes)) && Counted(HoldingOf(w), w.refs, ToSet(w.lists.scopes), 0)
  {
    hide Closed, Ranked, WfRoots, Remembered, HeldClosed, Counted, LogOk, State.Valid, Uids;
  }

  lemma BodyFacts(w: World, a: Ptr)
    requires Ok(w) && a in w.mem
    ensures WfBody(w.mem, w.ctxs, LiveOf(w), w.mem[a].body)
    ensures w.mem[a].gen == 1 && !w.mem[a].wb ==> OldBody(w.mem, w.mem[a].body)
    ensures a != 0 && a !in w.ctxs
  {
    OkFacts(w);
    hide Ok, WfBody, OldBody, WfRoots, HeldClosed, Counted, State.Valid, Uids;
  }

  lemma ContextFacts(w: World, c: Ptr)
    requires Ok(w) && c in w.scopes
    ensures c in w.ctxs && WfContext(w.mem, w.ctxs, LiveOf(w), w.ctxs[c])
    ensures w.ctxs[c].gen == 1 && !w.ctxs[c].wb ==> Old(w.mem, w.ctxs[c].obj) && Old(w.mem, w.ctxs[c].slots)
    ensures c != 0 && c in w.refs
  {
    OkFacts(w);
    hide Ok, WfBody, OldBody, WfRoots, Holders, State.Valid, Uids;
  }

  /** One node written. */
  lemma Wrote(st: State, w: World, a: Ptr, n: Node, lists: Lists)
    requires Ok(w) && MayWrite(w, a, n, lists) && WorldOf(st) == Written(w, a, n, lists)
    requires HeapsSound(w.mem, st.heap0, st.heap1, st.heap2)
    requires IdsSound(st.ctxs, st.liveCtx, st.coros, st.wbCoro, st.gen, st.cid) && Uids(st.mem, st.stuid)
    ensures st.Valid()
  {
    hide Ok, WfBody, OldBody, IdsSound, State.Valid, MayWrite;
    WriteOk(w, a, n, lists);
    WrittenHeaps(w, a, n, lists, st.heap0, st.heap1, st.heap2);
    hide HeapsSound;
    Parts(st);
  }

  lemma WrittenHeaps(w: World, a: Ptr, n: Node, lists: Lists, heap0: set<Ptr>, heap1: set<Ptr>, heap2: set<Ptr>)
    requires MayWrite(w, a, n, lists) && HeapsSound(w.mem, heap0, heap1, heap2)
    ensures HeapsSound(Written(w, a, n, lists).mem, heap0, heap1, heap2)
  {
    hide WfBody, OldBody;
  }

  /** One context written. */
  lemma WroteContext(st: State, w: World, c: Ptr, n: Context, lists: Lists)
    requires Ok(w) && MayWriteContext(w, c, n, lists) && WorldOf(st) == WrittenContext(w, c, n, lists)
    requires HeapsSound(st.mem, st.heap0, st.heap1, st.heap2)
    requires IdsSound(w.ctxs, st.liveCtx, st.coros, st.wbCoro, st.gen, st.cid) && Uids(st.mem, st.stuid)
    ensures st.Valid()
  {
    hide Uids;
    WriteContextOk(w, c, n, lists);
    Parts(st);
    hide Ok, WfContext, HeapsSound, State.Valid, Uids;
  }

  // ---------------------------------------------------------------------------
  // Allocation

  /** Identities are never given out twice. */
  ghost predicate Unused(st: State, id: nat)
    reads st
  {
    id !in st.destructed && forall m | m in st.log :: IdOf(st.mem, m) != id
  }

  method AddRef(st: State, c: Ptr)
    modifies st`refs
    ensures st.refs == Referred(old(st.refs), c)
  {
    if c in st.refs {
      st.refs := st.refs[c := st.refs[c] + 1];
    }
  }

  /** Memory at an unused address of the heap of generation `n.gen`. */
  method AllocAt(st: State, n: Node) returns (a: Ptr)
    requires HeapsSound(st.mem, st.heap0, st.heap1, st.heap2) && n.gen <= 1 && n.copy == 0
    modifies st`mem, st`heap0, st`heap1
    ensures HeapsSound(st.mem, st.heap0, st.heap1, st.heap2)
    ensures a !in old(st.mem) && a != 0 && a !in st.ctxs && st.mem == old(st.mem)[a := n]
  {
    hide HeapsSound, State.Valid, Uids;
    a := st.FreshAddress();
    HeapsMore(st.mem, st.heap0, st.heap1, st.heap2, a, n);
    if n.gen == 0 {
      st.heap0 := st.heap0 + {a};
    } else {
      st.heap1 := st.heap1 + {a};
    }
    st.mem := st.mem[a := n];
  }

  /** A new node.  A function object takes a reference to its scope, and what has to be
      destructed is logged. */
  method Alloc(st: State, n: Node, logged: bool) returns (a: Ptr)
    requires st.Valid() && n.gen <= 1 && n.copy == 0 && !n.wb
    requires WfBody(st.mem, st.ctxs, st.Live(), n.body)
    requires n.gen == 1 ==> OldBody(st.mem, n.body) && (n.body.Object? ==> OldScope(st.ctxs, n.body.scope))
    requires (logged ==> n.body.Object? && Unused(st, n.body.id)) && OwnUid(st.mem, st.stuid, n.body)
    requires n.body.Object? && n.body.scope != 0 ==> logged
    modifies st`mem, st`heap0, st`heap1, st`refs, st`log
    ensures st.Valid() && a !in old(st.mem) && a != 0 && st.mem == old(st.mem)[a := n]
    ensures st.log == if logged then old(st.log) + [a] else old(st.log)
    ensures st.refs == if n.body.Object? then Referred(old(st.refs), n.body.scope) else old(st.refs)
  {
    hide Ok, WfBody, OldBody, OldScope, IdsSound, HeapsSound, Unused, MayBody, Allocated, Referred, State.Valid, Uids;
    ghost var w := WorldOf(st);
    Parts(st);
    MakeBody(st, n, logged);
    a := AllocAt(st, n);
    UidsAdd(w.mem, st.stuid, a, n);
    assert MayAlloc(w, a, n, logged);
    AllocOk(w, a, n, logged);
    if n.body.Object? {
      AddRef(st, n.body.scope);
    }
    if logged {
      st.log := st.log + [a];
    }
    MakeAllocated(st, w, a, n, logged);
    Parts(st);
  }

  lemma MakeBody(st: State, n: Node, logged: bool)
    requires n.gen <= 1 && n.copy == 0 && !n.wb && WfBody(st.mem, st.ctxs, st.Live(), n.body)
    requires n.gen == 1 ==> OldBody(st.mem, n.body) && (n.body.Object? ==> OldScope(st.ctxs, n.body.scope))
    requires (logged ==> n.body.Object? && Unused(st, n.body.id)) && (n.body.Object? && n.body.scope != 0 ==> logged)
    ensures MayBody(WorldOf(st), n, logged)
  {
    hide WfBody, OldBody, OldScope, State.Valid, Uids;
  }

  lemma MakeAllocated(st: State, w: World, a: Ptr, n: Node, logged: bool)
    requires st.mem == w.mem[a := n] && st.log == (if logged then w.log + [a] else w.log)
    requires st.refs == if n.body.Object? then Referred(w.refs, n.body.scope) else w.refs
    requires st.ctxs == w.ctxs && st.liveCtx == w.scopes && st.rank == w.rank && st.RootSet() == w.roots && st.WbLists() == w.lists
    requires st.destructed == w.destructed
    ensures WorldOf(st) == Allocated(w, a, n, logged)
  {
  }

  lemma HeapsMore(mem: map<Ptr, Node>, heap0: set<Ptr>, heap1: set<Ptr>, heap2: set<Ptr>, a: Ptr, n: Node)
    requires HeapsSound(mem, heap0, heap1, heap2) && a !in mem && n.gen <= 1 && n.copy == 0
    ensures HeapsSound(mem[a := n], if n.gen == 0 then heap0 + {a} else heap0, if n.gen == 0 then heap1 else heap1 + {a}, heap2)
  {
  }

  /** A new object without slots, in the nursery. */
  method NewObject(st: State, id: nat, proto: Ptr, items: seq<Ptr>, scope: Ptr, logged: bool) returns (a: Ptr)
    requires st.Valid() && IsObject(st.mem, st.Live(), proto) && IsContext(st.ctxs, st.Live(), scope)
    requires forall i | 0 <= i < |items| :: IsObject(st.mem, st.Live(), items[i])
    requires (logged ==> Unused(st, id)) && (scope != 0 ==> logged)
    modifies st`mem, st`heap0, st`heap1, st`refs, st`log
    ensures st.Valid() && a !in old(st.mem) && a != 0
    ensures st.mem == old(st.mem)[a := Node(Object(id, 0, proto, items, scope), 0, false, 0)]
    ensures st.log == (if logged then old(st.log) + [a] else old(st.log)) && st.refs == Referred(old(st.refs), scope)
  {
    hide State.Valid, Referred, Unused, IsObject, IsContext;
    assert IsTable(st.mem, st.Live(), 0);
    a := Alloc(st, Node(Object(id, 0, proto, items, scope), 0, false, 0), logged);
  }

  function Empty(size: nat): (r: seq<Entry>)
    ensures |r| == size && forall i | 0 <= i < size :: r[i].key == 0 && r[i].val == 0
  {
    seq(size, i => Entry(0, 0))
  }

  /** An empty slot table in the heap of generation `gen`, under an id of its own. */
  method NewTableAt(st: State, size: nat, gen: nat) returns (a: Ptr)
    requires st.Valid() && gen <= 1
    modifies st`mem, st`heap0, st`heap1, st`refs, st`log, st`stuid
    ensures st.Valid() && a !in old(st.mem) && a != 0
    ensures st.mem == old(st.mem)[a := Node(Table(Empty(size), st.stuid, false), gen, false, 0)]
    ensures st.refs == old(st.refs) && st.log == old(st.log) && st.stuid == old(st.stuid) + 1
  {
    hide State.Valid, Uids;
    GenUid(st);
    var n := Node(Table(Empty(size), st.stuid, false), gen, false, 0);
    a := Alloc(st, n, false);
  }

  lemma NextOwnUid(mem: map<Ptr, Node>, last: nat)
    requires Uids(mem, last)
    ensures Uids(mem, last + 1) && forall n: Body | n.Table? && n.uid == last + 1 :: OwnUid(mem, last + 1, n)
  {
  }

  /** A node's id may become one that is not in use. */
  lemma UidsNew(mem: map<Ptr, Node>, last: nat, a: Ptr, n: Node)
    requires Uids(mem, last) && a in mem && OwnUid(mem, last, n.body)
    ensures Uids(mem[a := n], last)
  {
    UidsMore(mem, mem[a := n], last, a);
  }

  /** A slot-table id nobody has had. */
  method GenUid(st: State)
    requires st.Valid()
    modifies st`stuid
    ensures st.stuid == old(st.stuid) + 1 && st.Valid()
    ensures forall n: Body | n.Table? && n.uid == st.stuid :: OwnUid(st.mem, st.stuid, n)
  {
    Parts(st);
    hide HeapsSound, IdsSound, Ok, State.Valid, Uids;
    ghost var w := WorldOf(st);
    NextOwnUid(st.mem, st.stuid);
    st.stuid := st.stuid + 1;
    assert WorldOf(st) == w;
    Parts(st);
  }

  // ---------------------------------------------------------------------------
  // Writes to objects and slot tables

  /** Write barrier for a pointer from a slot table to an object. */
  method WriteBarrierSlot(st: State, table: Ptr, value: Ptr)
    requires table in st.mem && (value != 0 ==> value in st.mem) && 0 !in st.mem
    modifies st`mem, st`wbSlot
    ensures st.mem == old(st.mem)[table := Mark(old(st.mem)[table], Young(old(st.mem), value))]
    ensures st.wbSlot == Enlist(old(st.wbSlot), table, old(st.mem)[table], Young(old(st.mem), value))
  {
    if st.mem[table].gen != 0 && value != 0 && st.mem[value].gen == 0 {
      if !st.mem[table].wb {
        st.wbSlot := st.wbSlot + [table];
        st.mem := st.mem[table := st.mem[table].(wb := true)];
      }
    }
  }

  /** One child of an object is replaced and the barrier told. */
  method StoreObject(st: State, obj: Ptr, n: Node, child: Ptr)
    requires st.Valid() && obj in st.mem && n == st.mem[obj].(body := n.body) && n.body.Object?
    requires Replaces(WorldOf(st), obj, n.body, child)
    modifies st`mem, st`wbObj
    ensures st.Valid()
    ensures st.mem == old(st.mem)[obj := Mark(n, Young(old(st.mem), child))]
    ensures st.wbObj == Enlist(old(st.wbObj), obj, n, Young(old(st.mem), child))
  {
    hide Ok, HeapsSound, IdsSound, WfBody, OldBody, MayWrite, State.Valid, Uids;
    Parts(st);
    ghost var w := WorldOf(st);
    NoNull(w);
    BarrierOk(w, obj, n.body, child);
    StoredHeaps(st.mem, st.heap0, st.heap1, st.heap2, obj);
    if child != 0 {
      st.WriteBarrierObj(obj, child);
    }
    st.mem := st.mem[obj := st.mem[obj].(body := n.body)];
    assert st.mem == w.mem[obj := Mark(n, Young(w.mem, child))];
    assert st.WbLists() == BarrierLists(w, obj, Young(w.mem, child));
    UidsSame(w.mem, st.stuid, obj, Mark(n, Young(w.mem, child)));
    Wrote(st, w, obj, Mark(n, Young(w.mem, child)), st.WbLists());
  }

  lemma NoNull(w: World)
    requires Ok(w)
    ensures 0 !in w.mem
  {
    OkFacts(w);
  }

  lemma StoredHeaps(mem: map<Ptr, Node>, heap0: set<Ptr>, heap1: set<Ptr>, heap2: set<Ptr>, a: Ptr)
    requires HeapsSound(mem, heap0, heap1, heap2) && a in mem
    ensures mem[a].gen <= 1 && mem[a].copy == 0
  {
  }

  /** `fs` is what a slot write makes of the cells `es`: cells may move and keys may be
      added, but every value is one that was there, or the one written. */
  ghost predicate Stored(es: seq<Entry>, fs: seq<Entry>, value: Ptr) {
    forall j | 0 <= j < |fs| ::
      && (fs[j].key == 0 ==> fs[j].val == 0)
      && (fs[j].val == 0 || fs[j].val == value || exists i :: 0 <= i < |es| && es[i].val == fs[j].val)
  }

  lemma StoredReplaces(w: World, table: Ptr, entries: seq<Entry>, uid: nat, value: Ptr)
    requires table in w.mem && w.mem[table].body.Table? && w.mem[table].gen <= 1
    requires WfBody(w.mem, w.ctxs, LiveOf(w), w.mem[table].body)
    requires IsObject(w.mem, LiveOf(w), value) && (value != 0 ==> w.mem[value].gen <= 1)
    requires Stored(w.mem[table].body.entries, entries, value)
    ensures Replaces(w, table, Table(entries, uid, w.mem[table].body.shared), value)
  {
    var es := w.mem[table].body.entries;
    forall j | 0 <= j < |entries|
      ensures IsObject(w.mem, LiveOf(w), entries[j].val)
      ensures OldBody(w.mem, w.mem[table].body) && Old(w.mem, value) ==> Old(w.mem, entries[j].val)
    {
      if entries[j].val != 0 && entries[j].val != value {
        var i :| 0 <= i < |es| && es[i].val == entries[j].val;
      }
    }
  }

  /** A slot write, once its cell has been found: `entries` are the cells it leaves, and
      `moved` says that the table had to grow and got a new id. */
  method StoreTable(st: State, table: Ptr, value: Ptr, entries: seq<Entry>, moved: bool)
    requires st.Valid() && table in st.mem && st.mem[table].body.Table? && IsObject(st.mem, st.Live(), value)
    requires Stored(st.mem[table].body.entries, entries, value)
    modifies st`mem, st`wbSlot, st`stuid
    ensures st.Valid()
    ensures var n, young := old(st.mem)[table], Young(old(st.mem), value);
            && st.mem == old(st.mem)[table := Mark(n.(body := Table(entries, if moved then st.stuid else n.body.uid, n.body.shared)), young)]
            && st.wbSlot == Enlist(old(st.wbSlot), table, n, young)
    ensures st.stuid == old(st.stuid) + (if moved then 1 else 0)
  {
    hide State.Valid, Stored, Enlist, Young, Mark, IsObject;
    if moved {
      GenUid(st);
      StoreCells(st, table, value, entries, st.stuid);
    } else {
      StoreCells(st, table, value, entries, st.mem[table].body.uid);
    }
  }

  method StoreCells(st: State, table: Ptr, value: Ptr, entries: seq<Entry>, uid: nat)
    requires table in st.mem && st.mem[table].body.Table?
    requires uid == st.mem[table].body.uid || OwnUid(st.mem, st.stuid, Table(entries, uid, st.mem[table].body.shared))
    requires st.Valid() && table in st.mem && st.mem[table].body.Table? && IsObject(st.mem, st.Live(), value)
    requires Stored(st.mem[table].body.entries, entries, value)
    modifies st`mem, st`wbSlot
    ensures st.Valid()
    ensures var n, young := old(st.mem)[table], Young(old(st.mem), value);
            && st.mem == old(st.mem)[table := Mark(n.(body := Table(entries, uid, n.body.shared)), young)]
            && st.wbSlot == Enlist(old(st.wbSlot), table, n, young)
  {
    hide Ok, HeapsSound, IdsSound, MayWrite, Stored, Enlist, Young, Mark, BarrierLists, State.Valid, Uids;
    ghost var w := WorldOf(st);
    var body := Table(entries, uid, st.mem[table].body.shared);
    CanStoreCells(st, w, table, value, entries, body);
    WriteBarrierSlot(st, table, value);
    st.mem := st.mem[table := st.mem[table].(body := body)];
    assert st.mem == w.mem[table := Mark(w.mem[table].(body := body), Young(w.mem, value))] by { MarkBody(w.mem[table], body, Young(w.mem, value)); }
    UidsTable(w.mem, st.stuid, table, w.mem[table].(body := body), Young(w.mem, value));
    WroteTable(st, w, table, body, Young(w.mem, value));
  }

  lemma UidsTable(mem: map<Ptr, Node>, last: nat, table: Ptr, n: Node, young: bool)
    requires Uids(mem, last) && table in mem && mem[table].body.Table? && n.body.Table?
    requires n.body.uid == mem[table].body.uid || OwnUid(mem, last, n.body)
    ensures Uids(mem[table := Mark(n, young)], last)
  {
    if n.body.uid == mem[table].body.uid {
      UidsSame(mem, last, table, Mark(n, young));
    } else {
      UidsNew(mem, last, table, Mark(n, young));
    }
  }

  lemma MarkBody(n: Node, body: Body, young: bool)
    ensures Mark(n, young).(body := body) == Mark(n.(body := body), young)
  {
  }

  lemma CanStoreCells(st: State, w: World, table: Ptr, value: Ptr, entries: seq<Entry>, body: Body)
    requires st.Valid() && w == WorldOf(st) && table in st.mem && st.mem[table].body.Table? && IsObject(st.mem, st.Live(), value)
    requires Stored(st.mem[table].body.entries, entries, value) && body.Table? && body == Table(entries, body.uid, st.mem[table].body.shared)
    ensures Ok(w) && 0 !in st.mem && HeapsSound(w.mem, st.heap0, st.heap1, st.heap2) && Uids(w.mem, st.stuid)
    ensures IdsSound(st.ctxs, st.liveCtx, st.coros, st.wbCoro, st.gen, st.cid)
    ensures MayWrite(w, table, Mark(w.mem[table].(body := body), Young(w.mem, value)), BarrierLists(w, table, Young(w.mem, value)))
  {
    hide Ok, HeapsSound, IdsSound, WfBody, OldBody, MayWrite, Stored, Replaces, BarrierLists, State.Valid, Uids;
    Parts(st);
    OkFacts(w);
    StoredHeaps(st.mem, st.heap0, st.heap1, st.heap2, table);
    if value != 0 {
      StoredHeaps(st.mem, st.heap0, st.heap1, st.heap2, value);
    }
    BodyFacts(w, table);
    StoredReplaces(w, table, entries, body.uid, value);
    BarrierOk(w, table, body, value);
  }

  lemma WroteTable(st: State, w: World, table: Ptr, body: Body, young: bool)
    requires Ok(w) && table in w.mem && w.mem[table].body.Table? && body.Table?
    requires MayWrite(w, table, Mark(w.mem[table].(body := body), young), BarrierLists(w, table, young))
    requires st.mem == w.mem[table := Mark(w.mem[table].(body := body), young)] && st.wbSlot == Enlist(w.lists.slots, table, w.mem[table], young)
    requires st.wbObj == w.lists.objs && st.wbCtx == w.lists.scopes
    requires st.ctxs == w.ctxs && st.liveCtx == w.scopes && st.rank == w.rank && st.RootSet() == w.roots
    requires st.refs == w.refs && st.log == w.log && st.destructed == w.destructed
    requires HeapsSound(w.mem, st.heap0, st.heap1, st.heap2) && IdsSound(st.ctxs, st.liveCtx, st.coros, st.wbCoro, st.gen, st.cid)
    requires Uids(st.mem, st.stuid)
    ensures st.Valid()
  {
    hide Ok, HeapsSound, IdsSound, MayWrite, Mark, State.Valid, Uids;
    Wrote(st, w, table, Mark(w.mem[table].(body := body), young), st.WbLists());
  }

  lemma SlotsReplace(w: World, obj: Ptr, slots: Ptr)
    requires Ok(w) && obj in w.mem && w.mem[obj].body.Object? && w.mem[obj].gen <= 1
    requires IsTable(w.mem, LiveOf(w), slots) && (slots != 0 ==> w.mem[slots].gen <= 1)
    ensures Replaces(w, obj, w.mem[obj].body.(slots := slots), slots)
  {
    BodyFacts(w, obj);
    hide Ok, State.Valid, Uids;
  }

  lemma ProtoReplace(w: World, obj: Ptr, proto: Ptr)
    requires Ok(w) && obj in w.mem && w.mem[obj].body.Object? && w.mem[obj].gen <= 1
    requires IsObject(w.mem, LiveOf(w), proto) && (proto != 0 ==> w.mem[proto].gen <= 1)
    ensures Replaces(w, obj, w.mem[obj].body.(proto := proto), proto)
  {
    BodyFacts(w, obj);
    hide Ok, State.Valid, Uids;
  }

  lemma ItemReplace(w: World, obj: Ptr, items: seq<Ptr>, item: Ptr)
    requires Ok(w) && obj in w.mem && w.mem[obj].body.Object? && w.mem[obj].gen <= 1
    requires IsObject(w.mem, LiveOf(w), item) && (item != 0 ==> w.mem[item].gen <= 1)
    requires forall i | 0 <= i < |items| :: items[i] in [0, item] + w.mem[obj].body.items
    ensures Replaces(w, obj, w.mem[obj].body.(items := items), item)
  {
    BodyFacts(w, obj);
    hide Ok, State.Valid, Uids;
  }

  method SetProto(st: State, obj: Ptr, proto: Ptr)
    requires st.Valid() && obj in st.mem && st.mem[obj].body.Object? && IsObject(st.mem, st.Live(), proto)
    modifies st`mem, st`wbObj
    ensures st.Valid()
    ensures var young := Young(old(st.mem), proto);
            && st.mem == old(st.mem)[obj := Mark(WithProto(old(st.mem)[obj], proto), young)]
            && st.wbObj == Enlist(old(st.wbObj), obj, old(st.mem)[obj], young)
  {
    hide Ok, HeapsSound, IdsSound, Replaces, State.Valid, Uids;
    Parts(st);
    StoredHeaps(st.mem, st.heap0, st.heap1, st.heap2, obj);
    if proto != 0 {
      StoredHeaps(st.mem, st.heap0, st.heap1, st.heap2, proto);
    }
    ProtoReplace(WorldOf(st), obj, proto);
    StoreObject(st, obj, WithProto(st.mem[obj], proto), proto);
  }

  /** The cells of a list of `n` elements where there were fewer: the new ones are null. */
  function Padded(items: seq<Ptr>, n: nat): (r: seq<Ptr>)
    ensures |r| == (if n <= |items| then |items| else n)
    ensures forall k | 0 <= k < |r| :: r[k] == if k < |items| then items[k] else 0
  {
    if n <= |items| then items else items + seq(n - |items|, i => 0)
  }

  method ListSet(st: State, list: Ptr, i: nat, item: Ptr)
    requires st.Valid() && list in st.mem && st.mem[list].body.Object? && IsObject(st.mem, st.Live(), item)
    modifies st`mem, st`wbObj
    ensures st.Valid()
    ensures var young := Young(old(st.mem), item);
            && st.mem == old(st.mem)[list := Mark(WithItems(old(st.mem)[list], Padded(old(st.mem)[list].body.items, i + 1)[i := item]), young)]
            && st.wbObj == Enlist(old(st.wbObj), list, old(st.mem)[list], young)
  {
    hide Ok, HeapsSound, IdsSound, Replaces, State.Valid, Uids;
    Parts(st);
    StoredHeaps(st.mem, st.heap0, st.heap1, st.heap2, list);
    if item != 0 {
      StoredHeaps(st.mem, st.heap0, st.heap1, st.heap2, item);
    }
    var items := Padded(st.mem[list].body.items, i + 1)[i := item];
    ItemReplace(WorldOf(st), list, items, item);
    StoreObject(st, list, WithItems(st.mem[list], items), item);
  }

  method ListPush(st: State, list: Ptr, item: Ptr)
    requires st.Valid() && list in st.mem && st.mem[list].body.Object? && IsObject(st.mem, st.Live(), item)
    modifies st`mem, st`wbObj
    ensures st.Valid()
    ensures var young := Young(old(st.mem), item);
            && st.mem == old(st.mem)[list := Mark(WithItems(old(st.mem)[list], old(st.mem)[list].body.items + [item]), young)]
            && st.wbObj == Enlist(old(st.wbObj), list, old(st.mem)[list], young)
  {
    hide Ok, HeapsSound, IdsSound, Replaces, State.Valid, Uids;
    Parts(st);
    StoredHeaps(st.mem, st.heap0, st.heap1, st.heap2, list);
    if item != 0 {
      StoredHeaps(st.mem, st.heap0, st.heap1, st.heap2, item);
    }
    var items := st.mem[list].body.items + [item];
    ItemReplace(WorldOf(st), list, items, item);
    StoreObject(st, list, WithItems(st.mem[list], items), item);
  }

  // ---------------------------------------------------------------------------
  // Copy on write

  /** A copy of a slot table in the nursery: same cells, own id, not shared. */
  method CopyState(st: State, table: Ptr) returns (copy: Ptr)
    requires st.Valid() && table in st.mem && st.mem[table].body.Table?
    modifies st`mem, st`heap0, st`heap1, st`refs, st`log, st`stuid
    ensures st.Valid() && copy !in old(st.mem) && copy != 0
    ensures st.mem == old(st.mem)[copy := Node(Table(old(st.mem)[table].body.entries, st.stuid, false), 0, false, 0)]
    ensures st.refs == old(st.refs) && st.log == old(st.log) && st.stuid == old(st.stuid) + 1
  {
    hide State.Valid, Ok;
    Parts(st);
    BodyFacts(WorldOf(st), table);
    GenUid(st);
    copy := Alloc(st, Node(Table(st.mem[table].body.entries, st.stuid, false), 0, false, 0), false);
  }

  /** A table is set that is no younger than the object: no barrier is needed. */
  method PlaceSlots(st: State, obj: Ptr, table: Ptr)
    requires st.Valid() && obj in st.mem && st.mem[obj].body.Object? && table in st.mem && st.mem[table].body.Table?
    requires st.mem[table].gen == st.mem[obj].gen || st.mem[obj].gen == 0
    modifies st`mem
    ensures st.Valid() && st.mem == old(st.mem)[obj := WithSlots(old(st.mem)[obj], table)]
  {
    hide Ok, HeapsSound, IdsSound, WfBody, OldBody, MayWrite, Replaces, State.Valid, Uids;
    Parts(st);
    ghost var w := WorldOf(st);
    StoredHeaps(st.mem, st.heap0, st.heap1, st.heap2, obj);
    StoredHeaps(st.mem, st.heap0, st.heap1, st.heap2, table);
    SlotsReplace(w, obj, table);
    BarrierOk(w, obj, w.mem[obj].body.(slots := table), table);
    st.mem := st.mem[obj := WithSlots(st.mem[obj], table)];
    UidsSame(w.mem, st.stuid, obj, WithSlots(w.mem[obj], table));
    Wrote(st, w, obj, WithSlots(w.mem[obj], table), w.lists);
  }

  ghost predicate Shared(mem: map<Ptr, Node>, p: Ptr) {
    p in mem && mem[p].body.Table? && mem[p].body.shared
  }

  method CopyOnWrite(st: State, obj: Ptr) returns (slots: Ptr)
    requires st.Valid() && obj in st.mem && st.mem[obj].body.Object?
    modifies st`mem, st`heap0, st`heap1, st`refs, st`log, st`stuid, st`wbObj
    ensures st.Valid() && obj in st.mem && st.mem[obj].body.Object? && slots == st.mem[obj].body.slots
    ensures st.refs == old(st.refs) && st.log == old(st.log)
    ensures var s0, o := old(st.mem)[obj].body.slots, old(st.mem)[obj];
            if Shared(old(st.mem), s0) then
              && slots !in old(st.mem) && slots != 0
              && st.mem == old(st.mem)[slots := Node(Table(old(st.mem)[s0].body.entries, st.stuid, false), 0, false, 0)]
                                      [obj := Mark(WithSlots(o, slots), true)]
              && st.wbObj == Enlist(old(st.wbObj), obj, o, true) && st.stuid == old(st.stuid) + 1
            else slots == s0 && st.mem == old(st.mem) && st.wbObj == old(st.wbObj) && st.stuid == old(st.stuid)
  {
    hide State.Valid, Ok, Replaces;
    slots := st.mem[obj].body.slots;
    TableThere(st, obj);
    if slots != 0 && st.mem[slots].body.shared {
      slots := CopyState(st, slots);
      CanSetSlots(st, obj, slots);
      StoreObject(st, obj, WithSlots(st.mem[obj], slots), slots);
    }
  }

  lemma TableThere(st: State, obj: Ptr)
    requires st.Valid() && obj in st.mem && st.mem[obj].body.Object?
    ensures var slots := st.mem[obj].body.slots; slots == 0 || (slots in st.mem && st.mem[slots].body.Table?)
    ensures 0 !in st.mem && st.mem[obj].gen <= 1
  {
    hide Ok, HeapsSound, IdsSound, State.Valid, Uids;
    Parts(st);
    StoredHeaps(st.mem, st.heap0, st.heap1, st.heap2, obj);
    BodyFacts(WorldOf(st), obj);
    OkFacts(WorldOf(st));
  }

  lemma CanSetSlots(st: State, obj: Ptr, slots: Ptr)
    requires st.Valid() && obj in st.mem && st.mem[obj].body.Object? && slots in st.mem && st.mem[slots].body.Table?
    ensures Replaces(WorldOf(st), obj, st.mem[obj].body.(slots := slots), slots)
  {
    hide Ok, HeapsSound, IdsSound, Replaces, State.Valid, Uids;
    Parts(st);
    StoredHeaps(st.mem, st.heap0, st.heap1, st.heap2, obj);
    StoredHeaps(st.mem, st.heap0, st.heap1, st.heap2, slots);
    SlotsReplace(WorldOf(st), obj, slots);
  }

  const DEFAULT_TABLE_SIZE := 4

  /** The cells a slot write to `obj` finds. */
  ghost function CellsOf(mem: map<Ptr, Node>, obj: Ptr): seq<Entry>
    requires obj in mem && mem[obj].body.Object?
  {
    var slots := mem[obj].body.slots;
    if slots in mem && mem[slots].body.Table? then mem[slots].body.entries else Empty(DEFAULT_TABLE_SIZE)
  }

  /** The table a slot of `obj` may be written to: its own, a private copy of a shared
      one, or a new one in the object's generation. */
  method OwnSlots(st: State, obj: Ptr) returns (table: Ptr)
    requires st.Valid() && obj in st.mem && st.mem[obj].body.Object?
    modifies st`mem, st`heap0, st`heap1, st`refs, st`log, st`stuid, st`wbObj
    ensures st.Valid() && obj in st.mem && table in st.mem && st.mem[table].body.Table? && table != obj
    ensures st.refs == old(st.refs) && st.log == old(st.log)
    ensures st.mem[table].body.entries == CellsOf(old(st.mem), obj) && !st.mem[table].body.shared
    ensures st.mem[obj].body == old(st.mem)[obj].body.(slots := table)
    ensures table == old(st.mem)[obj].body.slots || table !in old(st.mem)
    ensures table == old(st.mem)[obj].body.slots ==> st.mem == old(st.mem)
    ensures forall a | a in old(st.mem) && a != obj :: a in st.mem && st.mem[a] == old(st.mem)[a]
    ensures forall a | a in st.mem && a != table :: a in old(st.mem)
    ensures st.mem[obj].gen == old(st.mem)[obj].gen
    ensures st.mem[obj].gen != 0 ==>
      (Young(st.mem, table) <==> Shared(old(st.mem), old(st.mem)[obj].body.slots) || Young(old(st.mem), old(st.mem)[obj].body.slots))
  {
    hide State.Valid, Mark, Enlist, Empty;
    TableThere(st, obj);
    if st.mem[obj].body.slots != 0 {
      table := CopyOnWrite(st, obj);
      MarkKeeps(WithSlots(old(st.mem)[obj], table), true);
    } else {
      table := NewTableAt(st, DEFAULT_TABLE_SIZE, st.mem[obj].gen);
      PlaceSlots(st, obj, table);
    }
  }

  lemma MarkKeeps(n: Node, young: bool)
    ensures Mark(n, young) == n.(wb := Mark(n, young).wb)
  {
  }

  /** Setting a slot of an object.  No table but the object's own is written, and no
      other object sees the change: a table that is shared stays as it is. */
  method SetSlot(st: State, obj: Ptr, value: Ptr, entries: seq<Entry>, moved: bool)
    requires st.Valid() && obj in st.mem && st.mem[obj].body.Object? && IsObject(st.mem, st.Live(), value)
    requires Stored(CellsOf(st.mem, obj), entries, value)
    modifies st`mem, st`heap0, st`heap1, st`refs, st`log, st`stuid, st`wbObj, st`wbSlot
    ensures st.Valid() && obj in st.mem && st.mem[obj].body.Object?
    ensures st.refs == old(st.refs) && st.log == old(st.log)
    ensures var table := st.mem[obj].body.slots;
            && st.mem[obj].body == old(st.mem)[obj].body.(slots := table)
            && table in st.mem && st.mem[table].body.Table? && st.mem[table].body.entries == entries && !st.mem[table].body.shared
            && (table == old(st.mem)[obj].body.slots || table !in old(st.mem))
            && (Shared(old(st.mem), old(st.mem)[obj].body.slots) ==> table !in old(st.mem))
            && (forall a | a in old(st.mem) && a != obj && a != table :: a in st.mem && st.mem[a] == old(st.mem)[a])
            && (forall a | a in st.mem && a != table :: a in old(st.mem))
  {
    hide State.Valid, CellsOf, Stored, Mark, Enlist;
    var table := OwnSlots(st, obj);
    ValueThere(st, old(st.mem), value);
    ghost var mid := st.mem;
    StoreTable(st, table, value, entries, moved);
    MarkKeeps(mid[table].(body := Table(entries, if moved then st.stuid else mid[table].body.uid, mid[table].body.shared)), Young(mid, value));
  }

  lemma ValueThere(st: State, mem0: map<Ptr, Node>, value: Ptr)
    requires value == 0 || (value in mem0 && mem0[value].body.Object? && value in st.mem)
    requires value != 0 ==> st.mem[value].body.Object?
    ensures IsObject(st.mem, st.Live(), value)
  {
  }

  // ---------------------------------------------------------------------------
  // Cloning

  /** Two objects may share one table from now on. */
  method SetShared(st: State, table: Ptr)
    requires st.Valid() && table in st.mem && st.mem[table].body.Table?
    modifies st`mem
    ensures st.Valid() && st.mem == old(st.mem)[table := old(st.mem)[table].(body := old(st.mem)[table].body.(shared := true))]
  {
    hide Ok, HeapsSound, IdsSound, WfBody, OldBody, MayWrite, State.Valid, Uids;
    Parts(st);
    ghost var w := WorldOf(st);
    var n := st.mem[table].(body := st.mem[table].body.(shared := true));
    assert MayWrite(w, table, n, w.lists) by { SharedWrite(w, table); }
    st.mem := st.mem[table := n];
    UidsSame(w.mem, st.stuid, table, n);
    Wrote(st, w, table, n, w.lists);
  }

  lemma SharedWrite(w: World, table: Ptr)
    requires Ok(w) && table in w.mem && w.mem[table].body.Table?
    ensures MayWrite(w, table, w.mem[table].(body := w.mem[table].body.(shared := true)), w.lists)
  {
    BodyFacts(w, table);
    hide Ok, State.Valid, Uids;
  }

  /** A clone: a young object with the same contents under an identity of its own.  It
      shares the table, which is marked, unless the table must not be shared
      (`noCow`): then it has a copy. */
  method Clone(st: State, obj: Ptr, id: nat, logged: bool, noCow: bool) returns (ret: Ptr)
    requires st.Valid() && obj in st.mem && st.mem[obj].body.Object? && (logged ==> Unused(st, id))
    requires st.mem[obj].body.scope != 0 ==> logged
    modifies st`mem, st`heap0, st`heap1, st`refs, st`log, st`stuid
    ensures st.Valid() && ret !in old(st.mem) && ret != 0 && ret in st.mem && st.mem[ret].body.Object?
    ensures var o, n := old(st.mem)[obj].body, st.mem[ret].body;
            && n == o.(id := id, slots := n.slots) && st.mem[ret].gen == 0 && !st.mem[ret].wb
            && (o.slots == 0 ==> n.slots == 0)
            && (o.slots != 0 && !noCow ==> n.slots == o.slots && Shared(st.mem, o.slots))
            && (o.slots != 0 && noCow ==> n.slots !in old(st.mem) && n.slots in st.mem && !Shared(st.mem, n.slots))
            && CellsOf(st.mem, ret) == CellsOf(old(st.mem), obj)
    ensures forall a | a in old(st.mem) && a != old(st.mem)[obj].body.slots :: a in st.mem && st.mem[a] == old(st.mem)[a]
    ensures forall a | a in old(st.mem) && old(st.mem)[a].body.Object? :: a in st.mem && st.mem[a].body.Object? && CellsOf(st.mem, a) == CellsOf(old(st.mem), a)
    ensures st.refs == Referred(old(st.refs), old(st.mem)[obj].body.scope)
    ensures st.log == if logged then old(st.log) + [ret] else old(st.log)
  {
    hide State.Valid, Unused, Referred, Empty;
    var o := st.mem[obj].body;
    TableThere(st, obj);
    forall a | a in st.mem && st.mem[a].body.Object?
      ensures st.mem[a].body.slots == 0 || (st.mem[a].body.slots in st.mem && st.mem[st.mem[a].body.slots].body.Table?)
    {
      TableThere(st, a);
    }
    CloneWf(st, obj, id);
    ret := Alloc(st, Node(Object(id, o.slots, o.proto, o.items, o.scope), 0, false, 0), logged);
    if o.slots != 0 {
      if noCow {
        var copy := CopyState(st, o.slots);
        PlaceSlots(st, ret, copy);
      } else {
        SetShared(st, o.slots);
      }
    }
  }

  lemma CloneWf(st: State, obj: Ptr, id: nat)
    requires st.Valid() && obj in st.mem && st.mem[obj].body.Object?
    ensures WfBody(st.mem, st.ctxs, st.Live(), st.mem[obj].body.(id := id))
  {
    hide Ok, HeapsSound, IdsSound, State.Valid, Uids;
    Parts(st);
    BodyFacts(WorldOf(st), obj);
  }

  // ---------------------------------------------------------------------------
  // Contexts and frames

  /** A context is live: somebody may still use it. */
  ghost predicate IsLive(st: State, c: Ptr)
    reads st
  {
    c in st.liveCtx && c in st.ctxs
  }

  method NewContext(st: State, prev: Ptr) returns (c: Ptr)
    requires st.Valid() && IsContext(st.ctxs, st.liveCtx, prev)
    modifies st`ctxs, st`refs, st`liveCtx, st`rank
    ensures st.Valid() && c !in old(st.ctxs) && c != 0 && st.liveCtx == old(st.liveCtx) + {c}
    ensures st.ctxs == old(st.ctxs)[c := Context(0, 0, prev, 0, 0, false)]
    ensures st.refs == Referred(old(st.refs), prev)[c := 0]
  {
    hide Ok, HeapsSound, IdsSound, Referred, Scoped, State.Valid, Valid3;
    Parts(st);
    ghost var w := WorldOf(st);
    c := st.FreshAddress();
    ScopeOk(w, c, prev);
    IdsMore(w, st.coros, st.wbCoro, st.gen, st.cid, c, prev);
    AddScope(st, c, prev);
    MakeScoped(st, w, c, prev);
    Parts(st);
  }

  method AddScope(st: State, c: Ptr, prev: Ptr)
    modifies st`ctxs, st`refs, st`liveCtx, st`rank
    ensures st.liveCtx == old(st.liveCtx) + {c}
    ensures st.ctxs == old(st.ctxs)[c := Context(0, 0, prev, 0, 0, false)]
    ensures st.refs == Referred(old(st.refs), prev)[c := 0]
    ensures st.rank == old(st.rank)[c := if prev in old(st.rank) then old(st.rank)[prev] + 1 else 0]
  {
    AddRef(st, prev);
    st.ctxs := st.ctxs[c := Context(0, 0, prev, 0, 0, false)];
    st.refs := st.refs[c := 0];
    st.liveCtx := st.liveCtx + {c};
    st.rank := st.rank[c := if prev in st.rank then st.rank[prev] + 1 else 0];
  }

  lemma MakeScoped(st: State, w: World, c: Ptr, prev: Ptr)
    requires st.ctxs == w.ctxs[c := Context(0, 0, prev, 0, 0, false)] && st.refs == Referred(w.refs, prev)[c := 0]
    requires st.liveCtx == w.scopes + {c} && st.rank == w.rank[c := if prev in w.rank then w.rank[prev] + 1 else 0]
    requires st.mem == w.mem && st.RootSet() == w.roots && st.WbLists() == w.lists && st.log == w.log && st.destructed == w.destructed
    ensures WorldOf(st) == Scoped(w, c, prev)
  {
    hide Referred, State.Valid, Uids;
  }

  lemma IdsMore(w: World, coros: seq<Coro>, wbCoro: seq<nat>, gen: nat, cid: nat, c: Ptr, prev: Ptr)
    requires IdsSound(w.ctxs, w.scopes, coros, wbCoro, gen, cid) && c !in w.ctxs
    ensures IdsSound(Scoped(w, c, prev).ctxs, Scoped(w, c, prev).scopes, coros, wbCoro, gen, cid)
  {
  }

  /** Write barrier for a pointer from a context to an object.  The list holds a
      reference of its own. */
  method WriteBarrierContext(st: State, c: Ptr, obj: Ptr)
    requires c in st.ctxs && obj in st.mem
    modifies st`ctxs, st`wbCtx, st`refs
    ensures var n, young := old(st.ctxs)[c], Young(st.mem, obj);
            && st.ctxs == old(st.ctxs)[c := MarkContext(n, young)]
            && st.wbCtx == EnlistContext(old(st.wbCtx), c, n, young)
            && st.refs == if MarkContext(n, young).wb != n.wb then Referred(old(st.refs), c) else old(st.refs)
  {
    if st.ctxs[c].gen != 0 && st.mem[obj].gen == 0 {
      if !st.ctxs[c].wb {
        st.wbCtx := st.wbCtx + [c];
        AddRef(st, c);
        st.ctxs := st.ctxs[c := st.ctxs[c].(wb := true)];
      }
    }
  }

  /** The object and the table of a context are set. */
  method StoreContext(st: State, c: Ptr, obj: Ptr, slots: Ptr)
    requires st.Valid() && IsLive(st, c) && IsObject(st.mem, st.Live(), obj) && IsTable(st.mem, st.Live(), slots)
    requires st.ctxs[c].gen != 0 && !st.ctxs[c].wb && !Young(st.mem, obj) ==> !Young(st.mem, slots)
    modifies st`ctxs, st`wbCtx, st`refs
    ensures st.Valid()
    ensures ContextStored(old(st.ctxs), old(st.wbCtx), old(st.refs), st.ctxs, st.wbCtx, st.refs, c, obj, slots, Young(st.mem, obj))
  {
    hide Ok, HeapsSound, IdsSound, MayWriteContext, Referred, MarkContext, EnlistContext, Young, State.Valid, ContextStored;
    ghost var w := WorldOf(st);
    CanStoreContext(st, w, c, obj, slots);
    WriteContext(st, c, obj, slots);
    StoredContext(st, w, c, obj, slots, Young(w.mem, obj));
  }

  /** The write itself, and the barrier for the object alone. */
  method WriteContext(st: State, c: Ptr, obj: Ptr, slots: Ptr)
    requires c in st.ctxs && 0 !in st.mem && (obj != 0 ==> obj in st.mem)
    modifies st`ctxs, st`wbCtx, st`refs
    ensures ContextStored(old(st.ctxs), old(st.wbCtx), old(st.refs), st.ctxs, st.wbCtx, st.refs, c, obj, slots, Young(st.mem, obj))
  {
    hide Referred, MarkContext, EnlistContext, Young, State.Valid, Uids;
    ContextMark(st.mem, st.wbCtx, c, st.ctxs[c], obj, slots);
    if obj != 0 {
      WriteBarrierContext(st, c, obj);
    }
    st.ctxs := st.ctxs[c := st.ctxs[c].(obj := obj, slots := slots)];
  }

  ghost predicate ContextStored(
    ctxs0: map<Ptr, Context>, wb0: seq<Ptr>, refs0: map<Ptr, int>, ctxs1: map<Ptr, Context>, wb1: seq<Ptr>, refs1: map<Ptr, int>,
    c: Ptr, obj: Ptr, slots: Ptr, young: bool)
  {
    && c in ctxs0
    && ctxs1 == ctxs0[c := MarkContext(ctxs0[c].(obj := obj, slots := slots), young)]
    && wb1 == EnlistContext(wb0, c, ctxs0[c], young)
    && refs1 == if MarkContext(ctxs0[c], young).wb != ctxs0[c].wb then Referred(refs0, c) else refs0
  }

  lemma ContextMark(mem: map<Ptr, Node>, l: seq<Ptr>, c: Ptr, n: Context, obj: Ptr, slots: Ptr)
    ensures MarkContext(n, Young(mem, obj)).(obj := obj, slots := slots) == MarkContext(n.(obj := obj, slots := slots), Young(mem, obj))
    ensures MarkContext(n.(obj := obj, slots := slots), Young(mem, obj)).wb == MarkContext(n, Young(mem, obj)).wb
    ensures obj == 0 && obj !in mem ==>
      MarkContext(n.(obj := obj, slots := slots), Young(mem, obj)) == n.(obj := obj, slots := slots)
      && EnlistContext(l, c, n, Young(mem, obj)) == l && MarkContext(n, Young(mem, obj)) == n
  {
  }

  lemma CanStoreContext(st: State, w: World, c: Ptr, obj: Ptr, slots: Ptr)
    requires st.Valid() && w == WorldOf(st) && IsLive(st, c) && IsObject(st.mem, st.Live(), obj) && IsTable(st.mem, st.Live(), slots)
    requires st.ctxs[c].gen != 0 && !st.ctxs[c].wb && !Young(st.mem, obj) ==> !Young(st.mem, slots)
    ensures Ok(w) && 0 !in w.mem && HeapsSound(st.mem, st.heap0, st.heap1, st.heap2)
    ensures IdsSound(w.ctxs, st.liveCtx, st.coros, st.wbCoro, st.gen, st.cid) && Uids(st.mem, st.stuid)
    ensures var young, n := Young(w.mem, obj), w.ctxs[c].(obj := obj, slots := slots);
            MayWriteContext(w, c, MarkContext(n, young), w.lists.(scopes := EnlistContext(w.lists.scopes, c, w.ctxs[c], young)))
  {
    Parts(st);
    assert w.ctxs[c].gen <= 1;
    hide Ok, IdsSound, MayWriteContext, MarkContext, EnlistContext, State.Valid, Uids;
    OkFacts(w);
    if obj != 0 {
      StoredHeaps(st.mem, st.heap0, st.heap1, st.heap2, obj);
    }
    if slots != 0 {
      StoredHeaps(st.mem, st.heap0, st.heap1, st.heap2, slots);
    }
    hide HeapsSound, State.Valid, Uids;
    ContextBarrierOk(w, c, obj, slots, Young(w.mem, obj));
  }

  lemma StoredContext(st: State, w: World, c: Ptr, obj: Ptr, slots: Ptr, young: bool)
    requires Ok(w) && c in w.ctxs
    requires MayWriteContext(w, c, MarkContext(w.ctxs[c].(obj := obj, slots := slots), young),
               w.lists.(scopes := EnlistContext(w.lists.scopes, c, w.ctxs[c], young)))
    requires ContextStored(w.ctxs, w.lists.scopes, w.refs, st.ctxs, st.wbCtx, st.refs, c, obj, slots, young)
    requires st.mem == w.mem && st.liveCtx == w.scopes && st.rank == w.rank && st.RootSet() == w.roots
    requires st.wbObj == w.lists.objs && st.wbSlot == w.lists.slots && st.log == w.log && st.destructed == w.destructed
    requires HeapsSound(st.mem, st.heap0, st.heap1, st.heap2) && IdsSound(w.ctxs, st.liveCtx, st.coros, st.wbCoro, st.gen, st.cid)
    requires Uids(st.mem, st.stuid)
    ensures st.Valid()
  {
    hide Ok, HeapsSound, IdsSound, MayWriteContext, Referred, State.Valid, Uids;
    ghost var n := MarkContext(w.ctxs[c].(obj := obj, slots := slots), young);
    assert WorldOf(st) == WrittenContext(w, c, n, st.WbLists());
    WroteContext(st, w, c, n, st.WbLists());
  }

  /** A table no younger than the context: no barrier is needed. */
  method PlaceContextSlots(st: State, c: Ptr, slots: Ptr)
    requires st.Valid() && IsLive(st, c) && slots in st.mem && st.mem[slots].body.Table?
    requires st.ctxs[c].gen == 0 || !Young(st.mem, slots)
    modifies st`ctxs
    ensures st.Valid() && st.ctxs == old(st.ctxs)[c := old(st.ctxs)[c].(slots := slots)]
  {
    hide Ok, HeapsSound, IdsSound, MayWriteContext, State.Valid, Uids;
    ghost var w := WorldOf(st);
    PlaceFacts(st, w, c, slots);
    st.ctxs := st.ctxs[c := st.ctxs[c].(slots := slots)];
    StoredContext(st, w, c, w.ctxs[c].obj, slots, false);
  }

  lemma PlaceFacts(st: State, w: World, c: Ptr, slots: Ptr)
    requires st.Valid() && w == WorldOf(st) && IsLive(st, c) && slots in st.mem && st.mem[slots].body.Table?
    requires st.ctxs[c].gen == 0 || !Young(st.mem, slots)
    ensures Ok(w) && HeapsSound(st.mem, st.heap0, st.heap1, st.heap2) && IdsSound(w.ctxs, st.liveCtx, st.coros, st.wbCoro, st.gen, st.cid)
    ensures Uids(st.mem, st.stuid)
    ensures MayWriteContext(w, c, w.ctxs[c].(slots := slots), w.lists)
  {
    Parts(st);
    assert w.ctxs[c].gen <= 1;
    hide Ok, IdsSound, MayWriteContext, State.Valid, Uids;
    StoredHeaps(st.mem, st.heap0, st.heap1, st.heap2, slots);
    hide HeapsSound, State.Valid, Uids;
    ContextFacts(w, c);
    ContextBarrierOk(w, c, w.ctxs[c].obj, slots, false);
  }

  lemma ContextThere(st: State, c: Ptr)
    requires st.Valid() && IsLive(st, c)
    ensures var slots := st.ctxs[c].slots; slots == 0 || (slots in st.mem && st.mem[slots].body.Table?)
    ensures IsObject(st.mem, st.Live(), st.ctxs[c].obj) && 0 !in st.mem && st.ctxs[c].gen <= 1
    ensures st.ctxs[c].gen == 1 && !st.ctxs[c].wb ==> Old(st.mem, st.ctxs[c].slots)
  {
    Parts(st);
    assert st.ctxs[c].gen <= 1;
    hide Ok, HeapsSound, IdsSound, State.Valid, Uids;
    ContextFacts(WorldOf(st), c);
    OkFacts(WorldOf(st));
  }

  method InitSlots(st: State, c: Ptr) returns (slots: Ptr)
    requires st.Valid() && IsLive(st, c)
    modifies st`mem, st`heap0, st`heap1, st`refs, st`log, st`stuid, st`ctxs
    ensures st.Valid() && IsLive(st, c) && slots in st.mem && st.mem[slots].body.Table?
    ensures st.ctxs == old(st.ctxs)[c := old(st.ctxs)[c].(slots := slots)] && st.refs == old(st.refs) && st.log == old(st.log)
    ensures if old(st.ctxs)[c].slots != 0 then slots == old(st.ctxs)[c].slots && st.mem == old(st.mem)
            else slots !in old(st.mem) && st.mem == old(st.mem)[slots := Node(Table(Empty(DEFAULT_TABLE_SIZE), st.stuid, false), old(st.ctxs)[c].gen, false, 0)]
  {
    hide State.Valid, Empty, Old;
    ContextThere(st, c);
    slots := st.ctxs[c].slots;
    if slots == 0 {
      slots := NewTableAt(st, DEFAULT_TABLE_SIZE, st.ctxs[c].gen);
      PlaceContextSlots(st, c, slots);
    }
  }

  /** Setting a slot of a context: its own table is written. */
  method ContextSetSlot(st: State, c: Ptr, value: Ptr, entries: seq<Entry>, moved: bool)
    requires st.Valid() && IsLive(st, c) && IsObject(st.mem, st.Live(), value)
    requires var slots := st.ctxs[c].slots;
             Stored(if slots in st.mem && st.mem[slots].body.Table? then st.mem[slots].body.entries else Empty(DEFAULT_TABLE_SIZE), entries, value)
    modifies st`mem, st`heap0, st`heap1, st`refs, st`log, st`stuid, st`ctxs, st`wbSlot
    ensures st.Valid() && IsLive(st, c)
    ensures var slots := st.ctxs[c].slots;
            && st.ctxs == old(st.ctxs)[c := old(st.ctxs)[c].(slots := slots)]
            && slots in st.mem && st.mem[slots].body.Table? && st.mem[slots].body.entries == entries
            && (forall a | a in old(st.mem) && a != slots :: a in st.mem && st.mem[a] == old(st.mem)[a])
            && (forall a | a in st.mem && a != slots :: a in old(st.mem))
  {
    hide State.Valid, Stored, Empty, Mark, Enlist;
    ContextThere(st, c);
    var slots := InitSlots(st, c);
    ValueThere(st, old(st.mem), value);
    ghost var mid := st.mem;
    StoreTable(st, slots, value, entries, moved);
    MarkKeeps(mid[slots].(body := Table(entries, if moved then st.stuid else mid[slots].body.uid, mid[slots].body.shared)), Young(mid, value));
  }

  /** The object of a context, made on first use around the context's own table. */
  method GetObject(st: State, c: Ptr, id: nat, proto: Ptr) returns (obj: Ptr)
    requires st.Valid() && IsLive(st, c) && IsObject(st.mem, st.Live(), proto)
    modifies st`mem, st`heap0, st`heap1, st`refs, st`log, st`stuid, st`ctxs, st`wbCtx
    ensures st.Valid() && IsLive(st, c) && obj == st.ctxs[c].obj
    ensures if old(st.ctxs)[c].obj != 0 then st.ctxs == old(st.ctxs) && st.mem == old(st.mem)
            else obj !in old(st.mem) && obj in st.mem && st.mem[obj].body == Object(id, st.ctxs[c].slots, proto, [], 0)
                 && st.ctxs[c].slots in st.mem && (old(st.ctxs)[c].slots != 0 ==> st.ctxs[c].slots == old(st.ctxs)[c].slots)
                 && (st.ctxs[c].gen != 0 ==> c in st.wbCtx)
  {
    hide State.Valid, Empty, MarkContext, EnlistContext, Referred;
    ContextThere(st, c);
    obj := st.ctxs[c].obj;
    if obj == 0 {
      var slots := InitSlots(st, c);
      ValueThere(st, old(st.mem), proto);
      NewObjectWf(st, id, slots, proto);
      obj := Alloc(st, Node(Object(id, slots, proto, [], 0), 0, false, 0), false);
      ghost var n := st.ctxs[c].(obj := obj, slots := slots);
      StoreContext(st, c, obj, slots);
      MarkContextKeeps(n, Young(st.mem, obj));
      if st.ctxs[c].gen != 0 {
        Listed(st, c);
      }
    }
  }

  lemma MarkContextKeeps(n: Context, young: bool)
    ensures MarkContext(n, young) == n.(wb := n.wb || (n.gen != 0 && young))
  {
  }

  lemma NewObjectWf(st: State, id: nat, slots: Ptr, proto: Ptr)
    requires slots in st.mem && st.mem[slots].body.Table? && IsObject(st.mem, st.Live(), proto)
    ensures WfBody(st.mem, st.ctxs, st.Live(), Object(id, slots, proto, [], 0))
  {
  }

  lemma Listed(st: State, c: Ptr)
    requires st.Valid() && IsLive(st, c) && st.ctxs[c].wb
    ensures c in st.wbCtx
  {
    hide Ok, HeapsSound, IdsSound, State.Valid, Uids;
    Parts(st);
    OkFacts(WorldOf(st));
    hide WfRoots, HeldClosed, Counted, Closed, State.Valid, Uids;
  }

  // ---------------------------------------------------------------------------
  // Coroutine stacks

  method PushValue(st: State, k: nat, value: Ptr)
    requires st.Valid() && k < |st.coros| && IsObject(st.mem, st.Live(), value)
    modifies st`coros
    ensures st.Valid() && st.coros == old(st.coros)[k := old(st.coros)[k].(stack := old(st.coros)[k].stack + [value])]
  {
    hide Ok, HeapsSound, IdsSound, IsObject, State.Valid, Uids;
    Parts(st);
    var co := st.coros[k].(stack := st.coros[k].stack + [value]);
    CoroThere(st, k);
    SetStack(st, k, co);
  }

  method PopValue(st: State, k: nat) returns (value: Ptr)
    requires st.Valid() && k < |st.coros| && st.coros[k].stack != []
    modifies st`coros
    ensures st.Valid() && IsObject(st.mem, st.Live(), value)
    ensures var stack := old(st.coros)[k].stack;
            && value == stack[|stack| - 1]
            && st.coros == old(st.coros)[k := old(st.coros)[k].(stack := stack[..|stack| - 1])]
  {
    hide State.Valid, IsObject;
    var stack := st.coros[k].stack;
    value := stack[|stack| - 1];
    CoroThere(st, k);
    SetStack(st, k, st.coros[k].(stack := stack[..|stack| - 1]));
  }

  lemma CoroThere(st: State, k: nat)
    requires st.Valid() && k < |st.coros|
    ensures WfCoro(st.mem, st.ctxs, st.Live(), st.coros[k])
  {
    hide Ok, HeapsSound, IdsSound, WfCoro, State.Valid, Uids;
    Parts(st);
    OkFacts(WorldOf(st));
  }

  method SetStack(st: State, k: nat, co: Coro)
    requires st.Valid() && k < |st.coros| && co == st.coros[k].(stack := co.stack) && WfCoro(st.mem, st.ctxs, st.Live(), co)
    modifies st`coros
    ensures st.Valid() && st.coros == old(st.coros)[k := co]
  {
    hide Ok, HeapsSound, WfCoro, State.Valid, Uids;
    Parts(st);
    ghost var w := WorldOf(st);
    StackOk(w, k, co);
    st.coros := st.coros[k := co];
    assert WorldOf(st) == WithCoro(w, k, co);
    Parts(st);
  }

  /** A call: the new frame takes a reference to its scope. */
  method PushFrame(st: State, k: nat, c: Ptr)
    requires st.Valid() && k < |st.coros| && IsContext(st.ctxs, st.liveCtx, c)
    modifies st`coros, st`refs
    ensures st.Valid() && st.refs == Referred(old(st.refs), c)
    ensures st.coros == old(st.coros)[k := old(st.coros)[k].(frames := old(st.coros)[k].frames + [c])]
  {
    hide Ok, HeapsSound, Referred, State.Valid, Uids;
    Parts(st);
    ghost var w := WorldOf(st);
    var co := st.coros[k].(frames := st.coros[k].frames + [c]);
    EnterOk(w, k, co, c);
    AddRef(st, c);
    st.coros := st.coros[k := co];
    assert WorldOf(st) == Entered(w, k, co, c);
    Parts(st);
  }

  /** One more reference does not hurt. */
  lemma ReferredHeld(scopes: set<Ptr>, refs: map<Ptr, int>, c: Ptr)
    requires AllHeld(scopes, refs)
    ensures AllHeld(scopes, Referred(refs, c))
  {
  }

  lemma ScopesThere(st: State)
    requires st.Valid()
    ensures st.liveCtx <= st.ctxs.Keys
  {
    Parts(st);
    hide HeapsSound, IdsSound, Ok, State.Valid, Uids;
    OkFacts(WorldOf(st));
  }

  /** A call of a function: a new scope inside the one the function closes over, and a frame
      that holds it. */
  method Enter(st: State, k: nat, prev: Ptr) returns (c: Ptr)
    requires st.Valid() && k < |st.coros| && IsContext(st.ctxs, st.liveCtx, prev)
    modifies st`coros, st`refs, st`ctxs, st`liveCtx, st`rank
    ensures st.Valid() && c !in old(st.liveCtx) && st.liveCtx == old(st.liveCtx) + {c} && c in st.ctxs && st.ctxs[c].prev == prev
    ensures st.coros == old(st.coros)[k := old(st.coros)[k].(frames := old(st.coros)[k].frames + [c])]
    ensures st.refs == Referred(old(st.refs), prev)[c := 1]
    ensures AllHeld(old(st.liveCtx), old(st.refs)) ==> AllHeld(st.liveCtx, st.refs)
  {
    hide State.Valid;
    ScopesThere(st);
    c := NewContext(st, prev);
    PushFrame(st, k, c);
  }

  /** A return: the frame gives its scope up, and scopes nobody holds any more go with it. */
  method PopFrame(st: State, k: nat)
    requires st.Valid() && k < |st.coros| && st.coros[k].frames != []
    modifies st`coros, st`refs, st`liveCtx
    ensures st.Valid() && st.liveCtx <= old(st.liveCtx)
    ensures var frames := old(st.coros)[k].frames;
            && st.coros == old(st.coros)[k := old(st.coros)[k].(frames := frames[..|frames| - 1])]
            && GaveUp(old(st.Holders0()), st.Holders0(), old(st.refs), st.refs, frames[|frames| - 1], 0)
    ensures AllHeld(old(st.liveCtx), old(st.refs)) ==> AllHeld(st.liveCtx, st.refs)
  {
    hide Ok, HeapsSound, IdsSound, HeldClosed, Counted, GaveUp, AllHeld, State.Valid, Uids;
    Parts(st);
    ghost var w := WorldOf(st);
    var frames := st.coros[k].frames;
    var c := frames[|frames| - 1];
    var co := st.coros[k].(frames := frames[..|frames| - 1]);
    LeaveFacts(w, k, co, c);
    ghost var h := HoldingOf(WithCoro(w, k, co));
    st.coros := st.coros[k := co];
    ghost var left := st.ContextFree(c, h, ToSet(st.wbCtx));
    st.liveCtx := left.scopes;
    LeaveOk(st, w, k, co, left);
    SameGaveUp(h, left, old(st.Holders0()), st.Holders0(), old(st.refs), st.refs, c);
  }

  /** Only scopes, and what they are nested in, matter here. */
  lemma SameGaveUp(h: Holding, left: Holding, h1: Holding, left1: Holding, refs0: map<Ptr, int>, refs1: map<Ptr, int>, c: Ptr)
    requires GaveUp(h, left, refs0, refs1, c, 0)
    requires h1.scopes == h.scopes && left1.scopes == left.scopes && h1.ctxs == h.ctxs
    ensures GaveUp(h1, left1, refs0, refs1, c, 0)
  {
    forall d ensures Gone(h1, left1, d) == Gone(h, left, d) {
    }
  }

  lemma LeaveFacts(w: World, k: nat, co: Coro, c: Ptr)
    requires Ok(w) && k < |w.roots.coros| && w.roots.coros[k].frames == co.frames + [c]
    ensures var h := HoldingOf(WithCoro(w, k, co));
            && HeldClosed(h, ToSet(w.lists.scopes)) && Counted(h, w.refs, ToSet(w.lists.scopes), c) && Held(h, c)
            && forall d | d in h.scopes :: d in w.ctxs && d in h.ctxs && w.ctxs[d].prev == h.ctxs[d].prev
  {
    OkFacts(w);
    LeaveHolders(w, k, co, c);
    hide Ok, HeldClosed, Counted, WfRoots, Closed, Remembered, State.Valid, Uids;
  }

  lemma LeaveOk(st: State, w: World, k: nat, co: Coro, left: Holding)
    requires Ok(w) && k < |w.roots.coros| && |w.roots.coros[k].frames| > 0
    requires co == w.roots.coros[k].(frames := w.roots.coros[k].frames[..|w.roots.coros[k].frames| - 1])
    requires left == HoldingOf(WithCoro(w, k, co)).(scopes := left.scopes) && left.scopes <= w.scopes
    requires HeldClosed(left, ToSet(w.lists.scopes)) && Counted(left, st.refs, ToSet(w.lists.scopes), 0)
    requires st.liveCtx == left.scopes && st.mem == w.mem && st.ctxs == w.ctxs && st.rank == w.rank && st.WbLists() == w.lists
    requires st.RootSet() == w.roots.(coros := w.roots.coros[k := co]) && st.log == w.log && st.destructed == w.destructed
    requires HeapsSound(st.mem, st.heap0, st.heap1, st.heap2) && IdsSound(w.ctxs, w.scopes, w.roots.coros, st.wbCoro, st.gen, st.cid)
    requires Uids(st.mem, st.stuid)
    ensures st.Valid()
  {
    hide HeapsSound, HeldClosed, Counted, Closed, Ranked, Remembered, WfRoots, LogOk, State.Valid, Uids;
    FewerFrames(w, k, co, left.scopes, st.refs);
    Parts(st);
    assert WorldOf(st) == w.(roots := st.RootSet(), scopes := left.scopes, refs := st.refs);
  }

  lemma FewerFrames(w: World, k: nat, co: Coro, scopes: set<Ptr>, refs: map<Ptr, int>)
    requires Ok(w) && k < |w.roots.coros| && |w.roots.coros[k].frames| > 0
    requires co == w.roots.coros[k].(frames := w.roots.coros[k].frames[..|w.roots.coros[k].frames| - 1])
    requires scopes <= w.scopes
    requires var w' := WithCoro(w, k, co).(scopes := scopes, refs := refs);
             HeldClosed(HoldingOf(w'), ToSet(w.lists.scopes)) && Counted(HoldingOf(w'), refs, ToSet(w.lists.scopes), 0)
    ensures Ok(WithCoro(w, k, co).(scopes := scopes, refs := refs))
  {
    var w' := WithCoro(w, k, co).(scopes := scopes, refs := refs);
    assert WfCoro(w.mem, w.ctxs, LiveOf(w), w.roots.coros[k]);
    WfRootsSet(w, k, co);
    FewerScopesOk(w, w');
  }

  // ---------------------------------------------------------------------------
  // A gap in the barriers

  /** The barrier of `SetObject` looks at the object only: it misses an old context that
      is given an old object whose table is young, or shared and thus about to be copied
      into the nursery. */
  ghost predicate Missed(mem: map<Ptr, Node>, ctxs: map<Ptr, Context>, c: Ptr, obj: Ptr) {
    && c in ctxs && ctxs[c].gen != 0 && !ctxs[c].wb
    && obj in mem && mem[obj].gen != 0 && mem[obj].body.Object?
    && (Shared(mem, mem[obj].body.slots) || Young(mem, mem[obj].body.slots))
  }

  /** An old context with a young table, and without the mark. */
  ghost predicate Forgotten(mem: map<Ptr, Node>, c: Context) {
    c.gen == 1 && !c.wb && Young(mem, c.slots)
  }

  /** Giving a context an object keeps the state valid exactly when no barrier is missed. */
  method SetObject(st: State, c: Ptr, obj: Ptr)
    requires st.Valid() && IsLive(st, c) && IsObject(st.mem, st.Live(), obj)
    modifies st`mem, st`heap0, st`heap1, st`refs, st`log, st`stuid, st`wbObj, st`ctxs, st`wbCtx
    ensures st.Valid() <==> !Missed(old(st.mem), old(st.ctxs), c, obj)
    ensures Missed(old(st.mem), old(st.ctxs), c, obj) ==> c in st.ctxs && Forgotten(st.mem, st.ctxs[c])
    ensures IsLive(st, c) && st.ctxs[c].obj == obj && (obj == 0 ==> st.ctxs[c].slots == 0)
    ensures obj != 0 ==> obj in st.mem && st.mem[obj].body.Object? && st.ctxs[c].slots == st.mem[obj].body.slots
                         && st.ctxs[c].slots in st.mem && !Shared(st.mem, st.ctxs[c].slots)
                         && st.mem[st.ctxs[c].slots].body.Table? && CellsOf(st.mem, obj) == CellsOf(old(st.mem), obj)
  {
    hide State.Valid, Ok, HeapsSound, IdsSound, ContextStored, Referred, Empty;
    var slots := 0;
    ContextThere(st, c);
    if obj != 0 {
      slots := OwnSlots(st, obj);
      ContextThere(st, c);
    }
    ghost var w := WorldOf(st);
    ghost var missed := st.ctxs[c].gen != 0 && !st.ctxs[c].wb && !Young(st.mem, obj) && Young(st.mem, slots);
    if !missed {
      ValueThere(st, old(st.mem), obj);
      CanStoreContext(st, w, c, obj, slots);
    }
    WriteContext(st, c, obj, slots);
    StoredPlain(w, st.ctxs, st.wbCtx, st.refs, c, obj, slots, Young(w.mem, obj));
    if !missed {
      StoredContext(st, w, c, obj, slots, Young(w.mem, obj));
    } else {
      NotRemembered(st, c);
    }
  }

  lemma StoredPlain(w: World, ctxs1: map<Ptr, Context>, wb1: seq<Ptr>, refs1: map<Ptr, int>, c: Ptr, obj: Ptr, slots: Ptr, young: bool)
    requires ContextStored(w.ctxs, w.lists.scopes, w.refs, ctxs1, wb1, refs1, c, obj, slots, young)
    ensures c in ctxs1 && ctxs1[c] == w.ctxs[c].(obj := obj, slots := slots, wb := w.ctxs[c].wb || (w.ctxs[c].gen != 0 && young))
  {
  }

  lemma NotRemembered(st: State, c: Ptr)
    requires IsLive(st, c) && st.ctxs[c].gen == 1 && !st.ctxs[c].wb && Young(st.mem, st.ctxs[c].slots) && 0 !in st.mem
    ensures !st.Valid()
  {
    if st.Valid() {
      Parts(st);
      OkFacts(WorldOf(st));
      hide Ok, HeapsSound, IdsSound, WfRoots, HeldClosed, Counted, Closed, State.Valid, Uids;
      assert false;
    }
  }

  /** Then the next partial collection passes the context over, whatever else it has done
      by then, and the table the context goes on naming is given back. */
  lemma MissedDangles(st: State, s: Snap, c: Ptr)
    requires st.gen == 0 && c in st.ctxs && Forgotten(st.mem, st.ctxs[c]) && Inv(st.BaseNow(), s)
    ensures c in s.ctxs && s.ctxs[c] == st.ctxs[c] && s.ctxs[c].slots != 0 && s.ctxs[c].slots !in Survivors(st.BaseNow(), s)
  {
    hide Copies, Original, Stays;
    assert PassedOver(st.BaseNow(), c) && Visits(st.BaseNow(), s, c);
  }

  /** A state in which the barrier is missed: an old object with a young table, known to
      the remembered set, and the old context of a running frame. */
  lemma MissedHappens()
    ensures exists w, c, obj :: Ok(w) && c in w.scopes && obj in w.mem && Missed(w.mem, w.ctxs, c, obj)
                                && (exists k :: 0 <= k < |w.roots.coros| && c in w.roots.coros[k].frames)
  {
    var w := Example();
    ExampleHeld();
    ExampleRemembered();
    ExampleRest();
    assert Ok(w) by {
      hide HeldClosed, Counted, Remembered, Closed, Ranked, WfRoots, LogOk, State.Valid, Example;
    }
    assert 3 in w.scopes && 1 in w.mem && Missed(w.mem, w.ctxs, 3, 1) && 3 in w.roots.coros[0].frames;
  }

  /** Context 3 is what the one frame of the one coroutine runs in. */
  ghost function Example(): World {
    World(map[1 := Node(Object(0, 2, 0, [], 0), 1, true, 0), 2 := Node(Table([], 1, false), 0, false, 0)],
          map[3 := Context(0, 0, 0, 0, 1, false)], {3}, map[3 := 0], Roots([Coro(0, [1], [3], 0, false)], [], 0, 0, 0),
          Lists([1], [], []), map[3 := 1], [], [])
  }

  lemma ExampleHolders()
    ensures Holders(HoldingOf(Example()), 3) == 1
  {
    var h := HoldingOf(Example());
    assert Closures(h, 3) == {} && Inners(h, 3) == {};
    assert FrameUses(h, 3) == {(0, 0)};
  }

  lemma ExampleHeld()
    ensures var w := Example(); HeldClosed(HoldingOf(w), ToSet(w.lists.scopes)) && Counted(HoldingOf(w), w.refs, ToSet(w.lists.scopes), 0)
  {
    ExampleHolders();
    hide Holders;
  }

  lemma ExampleRemembered()
    ensures var w := Example(); Remembered(w.mem, w.ctxs, w.scopes, w.lists)
  {
  }

  lemma ExampleRest()
    ensures var w := Example();
            && Addresses(w.mem, w.ctxs) && w.scopes <= w.ctxs.Keys && Closed(w.mem, w.ctxs, LiveOf(w))
            && Ranked(w.ctxs, LiveOf(w), w.rank) && WfRoots(w.mem, w.ctxs, LiveOf(w), w.roots) && LogOk(w.mem, w.log, w.destructed)
  {
  }
}
