/** What a single write or allocation does to a sound state. */
module GcUpdate {
  import opened GcGraph
  import opened GcTheorem
  import opened ContextRefs
  import opened GcFinish

  /** A state between two operations, heaps and ids aside. */
  datatype World = World(
    mem: map<Ptr, Node>, ctxs: map<Ptr, Context>, scopes: set<Ptr>, rank: map<Ptr, nat>, roots: Roots, lists: Lists,
    refs: map<Ptr, int>, log: seq<Ptr>, destructed: seq<nat>)

  ghost predicate Ok(w: World) {
    Sound(w.mem, w.ctxs, w.scopes, w.rank, w.roots, w.lists, w.refs, w.log, w.destructed)
  }

  ghost function LiveOf(w: World): set<Ptr> {
    w.mem.Keys + w.scopes
  }

  ghost function HoldingOf(w: World): Holding {
    Holding(w.mem, w.mem.Keys, w.ctxs, w.scopes, w.roots.coros)
  }

  // ---------------------------------------------------------------------------
  // Writing to a node

  /** The same nodes, each of the same kind. */
  ghost predicate SameKinds(mem: map<Ptr, Node>, mem': map<Ptr, Node>) {
    mem'.Keys == mem.Keys && forall a | a in mem :: mem'[a].body.Object? <==> mem[a].body.Object?
  }

  lemma WfBodySame(mem: map<Ptr, Node>, mem': map<Ptr, Node>, ctxs: map<Ptr, Context>, live: set<Ptr>, n: Body)
    requires SameKinds(mem, mem') && WfBody(mem, ctxs, live, n)
    ensures WfBody(mem', ctxs, live, n)
  {
  }

  lemma WfContextSame(mem: map<Ptr, Node>, mem': map<Ptr, Node>, ctxs: map<Ptr, Context>, live: set<Ptr>, c: Context)
    requires SameKinds(mem, mem') && WfContext(mem, ctxs, live, c)
    ensures WfContext(mem', ctxs, live, c)
  {
  }

  lemma WfRootsSame(mem: map<Ptr, Node>, mem': map<Ptr, Node>, ctxs: map<Ptr, Context>, live: set<Ptr>, r: Roots)
    requires SameKinds(mem, mem') && WfRoots(mem, ctxs, live, r)
    ensures WfRoots(mem', ctxs, live, r)
  {
    forall k | 0 <= k < |r.coros| ensures WfCoro(mem', ctxs, live, r.coros[k]) {
      assert WfCoro(mem, ctxs, live, r.coros[k]);
    }
  }

  /** `n` may replace the node at `a`: same object, pointers of the right kind, and
      the barrier has seen to it that a young child of an old node is remembered. */
  ghost predicate MayWrite(w: World, a: Ptr, n: Node, lists: Lists) {
    && a in w.mem
    && n.gen == w.mem[a].gen && n.copy == w.mem[a].copy
    && (n.body.Object? <==> w.mem[a].body.Object?)
    && (n.body.Object? ==> n.body.scope == w.mem[a].body.scope && n.body.id == w.mem[a].body.id)
    && WfBody(w.mem, w.ctxs, LiveOf(w), n.body)
    && (n.gen == 1 && !n.wb ==> OldBody(w.mem, n.body))
    && (if n.wb == w.mem[a].wb then lists == w.lists
        else n.wb && n.gen == 1 && lists == (if n.body.Object? then w.lists.(objs := w.lists.objs + [a]) else w.lists.(slots := w.lists.slots + [a])))
  }

  ghost function Written(w: World, a: Ptr, n: Node, lists: Lists): World {
    w.(mem := w.mem[a := n], lists := lists)
  }

  lemma WrittenClosed(w: World, a: Ptr, n: Node, lists: Lists)
    requires Ok(w) && MayWrite(w, a, n, lists)
    ensures var w' := Written(w, a, n, lists);
            Closed(w'.mem, w'.ctxs, LiveOf(w')) && WfRoots(w'.mem, w'.ctxs, LiveOf(w'), w.roots) && SameKinds(w.mem, w'.mem)
  {
    hide Remembered, HeldClosed, Counted, LogOk, WfBody, WfContext, WfCoro;
    var w' := Written(w, a, n, lists);
    assert LiveOf(w') == LiveOf(w);
    assert SameKinds(w.mem, w'.mem);
    forall m | m in w'.mem ensures WfBody(w'.mem, w'.ctxs, LiveOf(w'), w'.mem[m].body) {
      WfBodySame(w.mem, w'.mem, w.ctxs, LiveOf(w), w'.mem[m].body);
    }
    forall c | c in w.scopes && c in w.ctxs ensures WfContext(w'.mem, w'.ctxs, LiveOf(w'), w'.ctxs[c]) {
      WfContextSame(w.mem, w'.mem, w.ctxs, LiveOf(w), w.ctxs[c]);
    }
    WfRootsSame(w.mem, w'.mem, w.ctxs, LiveOf(w), w.roots);
  }

  lemma OldBodySame(mem: map<Ptr, Node>, mem': map<Ptr, Node>, n: Body)
    requires mem'.Keys == mem.Keys && (forall a | a in mem :: mem'[a].gen == mem[a].gen) && OldBody(mem, n)
    ensures OldBody(mem', n)
  {
  }

  lemma WrittenRemembered(w: World, a: Ptr, n: Node, lists: Lists)
    requires Ok(w) && MayWrite(w, a, n, lists)
    ensures var w' := Written(w, a, n, lists); Remembered(w'.mem, w'.ctxs, w'.scopes, w'.lists)
  {
    hide Closed, Ranked, WfRoots, HeldClosed, Counted, LogOk, WfBody;
    var w' := Written(w, a, n, lists);
    WrittenNodes(w, a, n, lists);
    WrittenMarked(w, a, n, lists);
    hide RemNodes, Marked, OldBody;
    assert RemContexts(w'.mem, w'.ctxs, w'.scopes);
  }

  lemma WrittenNodes(w: World, a: Ptr, n: Node, lists: Lists)
    requires Ok(w) && MayWrite(w, a, n, lists)
    ensures RemNodes(Written(w, a, n, lists).mem, w.ctxs)
  {
    hide Closed, Ranked, WfRoots, HeldClosed, Counted, LogOk, WfBody, RemContexts, Marked;
    var w' := Written(w, a, n, lists);
    forall m | m in w'.mem && w'.mem[m].gen == 1
      ensures !w'.mem[m].wb ==> OldBody(w'.mem, w'.mem[m].body)
      ensures w'.mem[m].body.Object? ==> OldScope(w'.ctxs, w'.mem[m].body.scope)
    {
      if !w'.mem[m].wb {
        OldBodySame(w.mem, w'.mem, w'.mem[m].body);
      }
    }
    hide OldBody;
  }

  lemma MarkedSame(mem: map<Ptr, Node>, ctxs: map<Ptr, Context>, scopes: set<Ptr>, l: Lists, a: Ptr, n: Node)
    requires Marked(mem, ctxs, scopes, l) && a in mem && n.gen == mem[a].gen && n.wb == mem[a].wb && (n.body.Object? <==> mem[a].body.Object?)
    ensures Marked(mem[a := n], ctxs, scopes, l)
  {
  }

  lemma MarkedObject(mem: map<Ptr, Node>, ctxs: map<Ptr, Context>, scopes: set<Ptr>, l: Lists, a: Ptr, n: Node)
    requires Marked(mem, ctxs, scopes, l) && a in mem && n.gen == mem[a].gen == 1 && n.wb && !mem[a].wb && n.body.Object? && mem[a].body.Object?
    ensures Marked(mem[a := n], ctxs, scopes, l.(objs := l.objs + [a]))
  {
    assert a !in l.objs;
  }

  lemma MarkedTable(mem: map<Ptr, Node>, ctxs: map<Ptr, Context>, scopes: set<Ptr>, l: Lists, a: Ptr, n: Node)
    requires Marked(mem, ctxs, scopes, l) && a in mem && n.gen == mem[a].gen == 1 && n.wb && !mem[a].wb && n.body.Table? && mem[a].body.Table?
    ensures Marked(mem[a := n], ctxs, scopes, l.(slots := l.slots + [a]))
  {
    assert a !in l.slots;
  }

  lemma WrittenMarked(w: World, a: Ptr, n: Node, lists: Lists)
    requires Marked(w.mem, w.ctxs, w.scopes, w.lists) && MayWrite(w, a, n, lists)
    ensures Marked(Written(w, a, n, lists).mem, w.ctxs, w.scopes, lists)
  {
    hide Marked, WfBody, OldBody;
    if n.wb == w.mem[a].wb {
      MarkedSame(w.mem, w.ctxs, w.scopes, w.lists, a, n);
    } else if n.body.Object? {
      MarkedObject(w.mem, w.ctxs, w.scopes, w.lists, a, n);
    } else {
      MarkedTable(w.mem, w.ctxs, w.scopes, w.lists, a, n);
    }
  }

  lemma WrittenHolders(w: World, a: Ptr, n: Node, lists: Lists, c: Ptr)
    requires MayWrite(w, a, n, lists)
    ensures var w' := Written(w, a, n, lists);
            Holders(HoldingOf(w'), c) == Holders(HoldingOf(w), c)
  {
    hide WfBody, OldBody;
    var h0, h := HoldingOf(w), HoldingOf(Written(w, a, n, lists));
    assert Closures(h, c) == Closures(h0, c) && Inners(h, c) == Inners(h0, c) && FrameUses(h, c) == FrameUses(h0, c);
  }

  lemma WrittenHeld(w: World, a: Ptr, n: Node, lists: Lists)
    requires MayWrite(w, a, n, lists)
    requires HeldClosed(HoldingOf(w), ToSet(w.lists.scopes)) && Counted(HoldingOf(w), w.refs, ToSet(w.lists.scopes), 0)
    ensures var w' := Written(w, a, n, lists);
            HeldClosed(HoldingOf(w'), ToSet(lists.scopes)) && Counted(HoldingOf(w'), w.refs, ToSet(lists.scopes), 0)
  {
    hide WfBody, OldBody;
    var w' := Written(w, a, n, lists);
    forall c ensures Holders(HoldingOf(w'), c) == Holders(HoldingOf(w), c) {
      WrittenHolders(w, a, n, lists, c);
    }
    hide Holders;
  }

  lemma WrittenLog(w: World, a: Ptr, n: Node, lists: Lists)
    requires MayWrite(w, a, n, lists) && LogOk(w.mem, w.log, w.destructed)
    ensures LogOk(Written(w, a, n, lists).mem, w.log, w.destructed)
  {
    hide WfBody, OldBody;
  }

  /** A write the barrier allows keeps the state sound. */
  lemma WriteOk(w: World, a: Ptr, n: Node, lists: Lists)
    requires Ok(w) && MayWrite(w, a, n, lists)
    ensures Ok(Written(w, a, n, lists))
  {
    WrittenClosed(w, a, n, lists);
    WrittenRemembered(w, a, n, lists);
    hide Closed, Ranked, WfRoots, Remembered, HeldClosed, Counted, WfBody, OldBody, LogOk;
    WrittenHeld(w, a, n, lists);
    WrittenLog(w, a, n, lists);
    assert LiveOf(Written(w, a, n, lists)) == LiveOf(w);
  }

  /** The mark a write barrier leaves on an old node that gets a young child. */
  ghost function Mark(n: Node, young: bool): Node {
    if n.gen != 0 && young then n.(wb := true) else n
  }

  /** The list such a node is put on, once. */
  ghost function Enlist(l: seq<Ptr>, a: Ptr, n: Node, young: bool): seq<Ptr> {
    if n.gen != 0 && young && !n.wb then l + [a] else l
  }

  ghost predicate Young(mem: map<Ptr, Node>, p: Ptr) {
    p in mem && mem[p].gen == 0
  }

  ghost function BarrierLists(w: World, a: Ptr, young: bool): Lists
    requires a in w.mem
  {
    if w.mem[a].body.Object? then w.lists.(objs := Enlist(w.lists.objs, a, w.mem[a], young))
    else w.lists.(slots := Enlist(w.lists.slots, a, w.mem[a], young))
  }

  /** A body that differs from what is at `a` in one child only. */
  ghost predicate Replaces(w: World, a: Ptr, n: Body, child: Ptr) {
    && a in w.mem && w.mem[a].gen <= 1 && WfBody(w.mem, w.ctxs, LiveOf(w), n)
    && (n.Object? <==> w.mem[a].body.Object?)
    && (n.Object? ==> n.scope == w.mem[a].body.scope && n.id == w.mem[a].body.id)
    && (OldBody(w.mem, w.mem[a].body) && Old(w.mem, child) ==> OldBody(w.mem, n))
    && (child == 0 || (child in w.mem && w.mem[child].gen <= 1))
  }

  /** With the barrier, one child of a node may always be replaced. */
  lemma BarrierOk(w: World, a: Ptr, n: Body, child: Ptr)
    requires Ok(w) && Replaces(w, a, n, child)
    ensures MayWrite(w, a, Mark(w.mem[a].(body := n), Young(w.mem, child)), BarrierLists(w, a, Young(w.mem, child)))
  {
    hide Closed, Ranked, WfRoots, HeldClosed, Counted, LogOk, WfBody, OldBody, RemContexts;
    assert w.mem[a].gen == 1 && !w.mem[a].wb ==> OldBody(w.mem, w.mem[a].body) by { hide Marked; }
    hide RemNodes, Marked;
  }

  // ---------------------------------------------------------------------------
  // Allocating a node

  /** A node that may be allocated: one of the old generation starts with old children,
      and what is logged has an identity of its own. */
  ghost predicate MayBody(w: World, n: Node, logged: bool) {
    && n.gen <= 1 && n.copy == 0 && !n.wb && WfBody(w.mem, w.ctxs, LiveOf(w), n.body)
    && (n.gen == 1 ==> OldBody(w.mem, n.body) && (n.body.Object? ==> OldScope(w.ctxs, n.body.scope)))
    && (logged ==> n.body.Object? && n.body.id !in w.destructed && forall m | m in w.log :: IdOf(w.mem, m) != n.body.id)
    && (n.body.Object? && n.body.scope != 0 ==> logged)
  }

  ghost predicate MayAlloc(w: World, a: Ptr, n: Node, logged: bool) {
    MayBody(w, n, logged) && a != 0 && a !in w.mem && a !in w.ctxs
  }

  /** The counts with one more reference to `c`, if it is a context. */
  function Referred(refs: map<Ptr, int>, c: Ptr): map<Ptr, int> {
    if c in refs then refs[c := refs[c] + 1] else refs
  }

  ghost function Allocated(w: World, a: Ptr, n: Node, logged: bool): World {
    w.(mem := w.mem[a := n],
       refs := if n.body.Object? then Referred(w.refs, n.body.scope) else w.refs,
       log := if logged then w.log + [a] else w.log)
  }

  lemma WfBodyMore(mem: map<Ptr, Node>, mem': map<Ptr, Node>, ctxs: map<Ptr, Context>, ctxs': map<Ptr, Context>, live: set<Ptr>, live': set<Ptr>, n: Body)
    requires mem.Keys <= mem'.Keys && (forall a | a in mem :: mem'[a] == mem[a]) && live <= live' && ctxs.Keys <= ctxs'.Keys
    requires WfBody(mem, ctxs, live, n)
    ensures WfBody(mem', ctxs', live', n)
  {
  }

  lemma WfRootsMore(mem: map<Ptr, Node>, mem': map<Ptr, Node>, ctxs: map<Ptr, Context>, ctxs': map<Ptr, Context>, live: set<Ptr>, live': set<Ptr>, r: Roots)
    requires mem.Keys <= mem'.Keys && (forall a | a in mem :: mem'[a] == mem[a]) && live <= live' && ctxs.Keys <= ctxs'.Keys
    requires WfRoots(mem, ctxs, live, r)
    ensures WfRoots(mem', ctxs', live', r)
  {
    forall k | 0 <= k < |r.coros| ensures WfCoro(mem', ctxs', live', r.coros[k]) {
      assert WfCoro(mem, ctxs, live, r.coros[k]);
    }
  }

  lemma AllocatedClosed(w: World, a: Ptr, n: Node, logged: bool)
    requires Ok(w) && MayAlloc(w, a, n, logged)
    ensures var w' := Allocated(w, a, n, logged);
            && Addresses(w'.mem, w'.ctxs) && Closed(w'.mem, w'.ctxs, LiveOf(w')) && WfRoots(w'.mem, w'.ctxs, LiveOf(w'), w.roots)
            && Ranked(w'.ctxs, LiveOf(w'), w.rank)
  {
    hide Remembered, HeldClosed, Counted, LogOk, WfBody, WfCoro, OldBody;
    var w' := Allocated(w, a, n, logged);
    forall m | m in w'.mem ensures WfBody(w'.mem, w'.ctxs, LiveOf(w'), w'.mem[m].body) {
      WfBodyMore(w.mem, w'.mem, w.ctxs, w.ctxs, LiveOf(w), LiveOf(w'), w'.mem[m].body);
    }
    WfRootsMore(w.mem, w'.mem, w.ctxs, w.ctxs, LiveOf(w), LiveOf(w'), w.roots);
  }

  lemma OldBodyMore(mem: map<Ptr, Node>, mem': map<Ptr, Node>, n: Body)
    requires mem.Keys <= mem'.Keys && (forall a | a in mem :: mem'[a].gen == mem[a].gen) && OldBody(mem, n)
    ensures OldBody(mem', n)
  {
  }

  lemma AllocatedRemembered(w: World, a: Ptr, n: Node, logged: bool)
    requires Ok(w) && MayAlloc(w, a, n, logged)
    ensures var w' := Allocated(w, a, n, logged); Remembered(w'.mem, w'.ctxs, w'.scopes, w'.lists)
  {
    hide Closed, Ranked, WfRoots, HeldClosed, Counted, LogOk, WfBody, OldBody;
    var w' := Allocated(w, a, n, logged);
    forall m | m in w'.mem && w'.mem[m].gen == 1 && !w'.mem[m].wb ensures OldBody(w'.mem, w'.mem[m].body) {
      OldBodyMore(w.mem, w'.mem, w'.mem[m].body);
    }
    assert Marked(w'.mem, w'.ctxs, w'.scopes, w'.lists) by {
      hide RemNodes, RemContexts;
    }
    hide Marked;
  }

  lemma MoreClosures(h0: Holding, h: Holding, a: Ptr, n: Node, c: Ptr)
    requires a !in h0.mem && h.mem == h0.mem[a := n] && h0.closures == h0.mem.Keys && h.closures == h.mem.Keys
    ensures |Closures(h, c)| == |Closures(h0, c)| + (if n.body.Object? && n.body.scope == c then 1 else 0)
  {
    if n.body.Object? && n.body.scope == c {
      assert Closures(h, c) == Closures(h0, c) + {a} && a !in Closures(h0, c);
    } else {
      assert Closures(h, c) == Closures(h0, c);
    }
  }

  lemma SameOtherHolders(h0: Holding, h: Holding, c: Ptr)
    requires h.scopes == h0.scopes && h.ctxs == h0.ctxs && h.coros == h0.coros
    ensures Inners(h, c) == Inners(h0, c) && FrameUses(h, c) == FrameUses(h0, c)
  {
  }

  lemma AllocatedHolders(w: World, a: Ptr, n: Node, logged: bool, c: Ptr)
    requires a !in w.mem
    ensures Holders(HoldingOf(Allocated(w, a, n, logged)), c)
            == Holders(HoldingOf(w), c) + (if n.body.Object? && n.body.scope == c then 1 else 0)
  {
    hide Closures, Inners, FrameUses, Referred;
    var h0, h := HoldingOf(w), HoldingOf(Allocated(w, a, n, logged));
    MoreClosures(h0, h, a, n, c);
    SameOtherHolders(h0, h, c);
  }

  lemma AllocatedCounted(w: World, a: Ptr, n: Node, logged: bool)
    requires a !in w.mem && Counted(HoldingOf(w), w.refs, ToSet(w.lists.scopes), 0)
    ensures var w' := Allocated(w, a, n, logged); Counted(HoldingOf(w'), w'.refs, ToSet(w.lists.scopes), 0)
  {
    var w' := Allocated(w, a, n, logged);
    forall c ensures Holders(HoldingOf(w'), c) == Holders(HoldingOf(w), c) + (if n.body.Object? && n.body.scope == c then 1 else 0) {
      AllocatedHolders(w, a, n, logged, c);
    }
    hide Holders;
  }

  lemma AllocatedHeld(w: World, a: Ptr, n: Node, logged: bool)
    requires a !in w.mem && HeldClosed(HoldingOf(w), ToSet(w.lists.scopes))
    requires n.body.Object? ==> Held(HoldingOf(w), n.body.scope)
    ensures var w' := Allocated(w, a, n, logged); HeldClosed(HoldingOf(w'), ToSet(w.lists.scopes))
  {
    hide ToSet;
  }

  lemma AllocatedScope(w: World, n: Node)
    requires Addresses(w.mem, w.ctxs) && WfBody(w.mem, w.ctxs, LiveOf(w), n.body) && n.body.Object?
    ensures Held(HoldingOf(w), n.body.scope)
  {
  }

  lemma AllocatedLog(w: World, a: Ptr, n: Node, logged: bool)
    requires Ok(w) && MayAlloc(w, a, n, logged)
    ensures var w' := Allocated(w, a, n, logged); LogOk(w'.mem, w'.log, w'.destructed) && ScopesLogged(w'.mem, w'.log)
  {
    hide Closed, Ranked, WfRoots, Remembered, HeldClosed, Counted, WfBody, OldBody, Referred;
    assert ScopesLogged(Allocated(w, a, n, logged).mem, Allocated(w, a, n, logged).log) by { hide LogOk; }
    hide ScopesLogged;
    if logged {
      LogMore(w.mem, w.log, w.destructed, a, n);
    } else {
      LogSame(w.mem, w.log, w.destructed, a, n);
    }
  }

  lemma LogSame(mem: map<Ptr, Node>, log: seq<Ptr>, destructed: seq<nat>, a: Ptr, n: Node)
    requires LogOk(mem, log, destructed) && a !in mem
    ensures LogOk(mem[a := n], log, destructed)
  {
    assert forall i | 0 <= i < |log| :: log[i] in mem && log[i] != a;
  }

  lemma LogMore(mem: map<Ptr, Node>, log: seq<Ptr>, destructed: seq<nat>, a: Ptr, n: Node)
    requires LogOk(mem, log, destructed) && a !in mem && n.body.Object? && n.body.id !in destructed
    requires forall i | 0 <= i < |log| :: IdOf(mem, log[i]) != n.body.id
    ensures LogOk(mem[a := n], log + [a], destructed)
  {
    LogSame(mem, log, destructed, a, n);
    assert forall i | 0 <= i < |log| :: log[i] in mem && log[i] != a;
  }

  /** An allocation keeps the state sound. */
  lemma AllocOk(w: World, a: Ptr, n: Node, logged: bool)
    requires Ok(w) && MayAlloc(w, a, n, logged)
    ensures Ok(Allocated(w, a, n, logged))
  {
    AllocatedClosed(w, a, n, logged);
    AllocatedRemembered(w, a, n, logged);
    AllocatedLog(w, a, n, logged);
    hide Closed, Ranked, WfRoots, Remembered, HeldClosed, Counted, WfBody, OldBody, LogOk, ScopesLogged;
    if n.body.Object? {
      AllocatedScope(w, n);
    }
    AllocatedHeld(w, a, n, logged);
    AllocatedCounted(w, a, n, logged);
  }

  // ---------------------------------------------------------------------------
  // Contexts

  /** `n` may replace the context at `c`: the enclosing scope stays, and a young child of
      an old context is remembered. */
  ghost predicate MayWriteContext(w: World, c: Ptr, n: Context, lists: Lists) {
    && c in w.ctxs && c in w.scopes
    && n.prev == w.ctxs[c].prev && n.gen == w.ctxs[c].gen && n.cid == w.ctxs[c].cid
    && WfContext(w.mem, w.ctxs, LiveOf(w), n)
    && (n.gen == 1 && !n.wb ==> Old(w.mem, n.obj) && Old(w.mem, n.slots))
    && (if n.wb == w.ctxs[c].wb then lists == w.lists
        else n.wb && n.gen == 1 && lists == w.lists.(scopes := w.lists.scopes + [c]))
  }

  /** Being put on the list is a reference of its own. */
  ghost function WrittenContext(w: World, c: Ptr, n: Context, lists: Lists): World
    requires c in w.ctxs
  {
    w.(ctxs := w.ctxs[c := n], lists := lists,
       refs := if n.wb != w.ctxs[c].wb then Referred(w.refs, c) else w.refs)
  }

  lemma ContextClosed(w: World, c: Ptr, n: Context, lists: Lists)
    requires Ok(w) && MayWriteContext(w, c, n, lists)
    ensures var w' := WrittenContext(w, c, n, lists);
            && Addresses(w'.mem, w'.ctxs) && Closed(w'.mem, w'.ctxs, LiveOf(w')) && WfRoots(w'.mem, w'.ctxs, LiveOf(w'), w.roots)
            && Ranked(w'.ctxs, LiveOf(w'), w.rank)
  {
    hide Remembered, HeldClosed, Counted, LogOk, WfBody, WfCoro;
    var w' := WrittenContext(w, c, n, lists);
    assert w'.ctxs.Keys == w.ctxs.Keys;
    forall m | m in w'.mem ensures WfBody(w'.mem, w'.ctxs, LiveOf(w'), w'.mem[m].body) {
      WfBodyMore(w.mem, w'.mem, w.ctxs, w'.ctxs, LiveOf(w), LiveOf(w'), w'.mem[m].body);
    }
    WfRootsMore(w.mem, w'.mem, w.ctxs, w'.ctxs, LiveOf(w), LiveOf(w'), w.roots);
  }

  lemma ContextRemembered(w: World, c: Ptr, n: Context, lists: Lists)
    requires Ok(w) && MayWriteContext(w, c, n, lists)
    ensures var w' := WrittenContext(w, c, n, lists); Remembered(w'.mem, w'.ctxs, w'.scopes, w'.lists)
  {
    hide Closed, Ranked, WfRoots, HeldClosed, Counted, LogOk, WfBody, OldBody;
    var w' := WrittenContext(w, c, n, lists);
    assert RemNodes(w'.mem, w'.ctxs) by { hide RemContexts, Marked; }
    assert RemContexts(w'.mem, w'.ctxs, w'.scopes) by { hide RemNodes, Marked; }
    assert Marked(w'.mem, w'.ctxs, w'.scopes, lists) by {
      hide RemNodes, RemContexts;
      ContextMarked(w, c, n, lists);
    }
    hide RemNodes, RemContexts, Marked;
  }

  lemma ContextMarked(w: World, c: Ptr, n: Context, lists: Lists)
    requires Marked(w.mem, w.ctxs, w.scopes, w.lists) && MayWriteContext(w, c, n, lists)
    ensures var w' := WrittenContext(w, c, n, lists); Marked(w'.mem, w'.ctxs, w'.scopes, lists)
  {
    hide WfContext, Old, Referred;
  }

  lemma ContextHolders(w: World, c: Ptr, n: Context, lists: Lists, d: Ptr)
    requires c in w.ctxs && n.prev == w.ctxs[c].prev
    ensures Holders(HoldingOf(WrittenContext(w, c, n, lists)), d) == Holders(HoldingOf(w), d)
  {
    var h0, h := HoldingOf(w), HoldingOf(WrittenContext(w, c, n, lists));
    assert Closures(h, d) == Closures(h0, d) && Inners(h, d) == Inners(h0, d) && FrameUses(h, d) == FrameUses(h0, d);
  }

  lemma ContextListed(w: World, c: Ptr, n: Context, lists: Lists)
    requires MayWriteContext(w, c, n, lists)
    ensures ToSet(lists.scopes) == ToSet(w.lists.scopes) + (if n.wb != w.ctxs[c].wb then {c} else {})
  {
    hide WfContext;
  }

  lemma ContextHeldClosed(w: World, c: Ptr, n: Context, lists: Lists)
    requires MayWriteContext(w, c, n, lists) && w.scopes <= w.ctxs.Keys
    requires HeldClosed(HoldingOf(w), ToSet(w.lists.scopes))
    ensures HeldClosed(HoldingOf(WrittenContext(w, c, n, lists)), ToSet(lists.scopes))
  {
    ContextListed(w, c, n, lists);
    assert n.prev == w.ctxs[c].prev && c in w.scopes && c in w.ctxs;
    hide WfContext, ToSet, MayWriteContext;
    forall d | d in w.scopes && d in w.ctxs ensures Held(HoldingOf(w), WrittenContext(w, c, n, lists).ctxs[d].prev) {
    }
  }

  lemma ContextCounted(w: World, c: Ptr, n: Context, lists: Lists)
    requires MayWriteContext(w, c, n, lists)
    requires Counted(HoldingOf(w), w.refs, ToSet(w.lists.scopes), 0)
    requires n.wb != w.ctxs[c].wb ==> c !in ToSet(w.lists.scopes)
    ensures var w' := WrittenContext(w, c, n, lists); Counted(HoldingOf(w'), w'.refs, ToSet(lists.scopes), 0)
  {
    hide WfContext, ToSet, Holders;
    var w' := WrittenContext(w, c, n, lists);
    ContextListed(w, c, n, lists);
    assert n.prev == w.ctxs[c].prev && c in w.scopes && c in w.ctxs;
    hide MayWriteContext;
    var old_, new_ := ToSet(w.lists.scopes), ToSet(lists.scopes);
    forall d | d in w.scopes
      ensures d in w'.refs && d in w'.ctxs && w'.refs[d] == Holders(HoldingOf(w'), d) + (if d in new_ then 1 else 0) + (if d == 0 then 1 else 0)
    {
      ContextHolders(w, c, n, lists, d);
    }
  }

  lemma NotListed(w: World, c: Ptr)
    requires Remembered(w.mem, w.ctxs, w.scopes, w.lists) && c in w.scopes && c in w.ctxs && !w.ctxs[c].wb
    ensures c !in ToSet(w.lists.scopes)
  {
    hide RemNodes, RemContexts;
  }

  lemma WriteContextOk(w: World, c: Ptr, n: Context, lists: Lists)
    requires Ok(w) && MayWriteContext(w, c, n, lists)
    ensures Ok(WrittenContext(w, c, n, lists))
  {
    ContextClosed(w, c, n, lists);
    ContextRemembered(w, c, n, lists);
    hide Closed, Ranked, WfRoots, Remembered, HeldClosed, Counted, WfContext, LogOk;
    ContextHeldClosed(w, c, n, lists);
    if n.wb != w.ctxs[c].wb {
      NotListed(w, c);
    }
    ContextCounted(w, c, n, lists);
  }

  ghost function MarkContext(n: Context, young: bool): Context {
    if n.gen != 0 && young then n.(wb := true) else n
  }

  ghost function EnlistContext(l: seq<Ptr>, c: Ptr, n: Context, young: bool): seq<Ptr> {
    if n.gen != 0 && young && !n.wb then l + [c] else l
  }

  /** A context with another object or table, all of them old unless the barrier is told
      of a young one, is a write the remembered sets allow. */
  lemma ContextBarrierOk(w: World, c: Ptr, obj: Ptr, slots: Ptr, young: bool)
    requires Ok(w) && c in w.scopes && c in w.ctxs && w.ctxs[c].gen <= 1
    requires IsObject(w.mem, LiveOf(w), obj) && IsTable(w.mem, LiveOf(w), slots)
    requires w.ctxs[c].gen == 1 && !w.ctxs[c].wb && !young ==> Old(w.mem, obj) && Old(w.mem, slots)
    ensures var n := MarkContext(w.ctxs[c].(obj := obj, slots := slots), young);
            MayWriteContext(w, c, n, w.lists.(scopes := EnlistContext(w.lists.scopes, c, w.ctxs[c], young)))
  {
    hide Ranked, WfRoots, HeldClosed, Counted, LogOk, WfBody, OldBody, Remembered;
    assert WfContext(w.mem, w.ctxs, LiveOf(w), w.ctxs[c]);
  }

  // ---------------------------------------------------------------------------
  // New contexts

  /** A new scope inside `prev`, nobody holding it yet. */
  ghost function Scoped(w: World, c: Ptr, prev: Ptr): World {
    w.(ctxs := w.ctxs[c := Context(0, 0, prev, 0, 0, false)],
       scopes := w.scopes + {c},
       rank := w.rank[c := if prev in w.rank then w.rank[prev] + 1 else 0],
       refs := Referred(w.refs, prev)[c := 0])
  }

  ghost predicate MayScope(w: World, c: Ptr, prev: Ptr) {
    c != 0 && c !in w.mem && c !in w.ctxs && IsContext(w.ctxs, w.scopes, prev)
  }

  lemma ScopedClosed(w: World, c: Ptr, prev: Ptr)
    requires Ok(w) && MayScope(w, c, prev)
    ensures var w' := Scoped(w, c, prev);
            && Addresses(w'.mem, w'.ctxs) && Closed(w'.mem, w'.ctxs, LiveOf(w')) && WfRoots(w'.mem, w'.ctxs, LiveOf(w'), w.roots)
            && w'.scopes <= w'.ctxs.Keys
  {
    hide Remembered, HeldClosed, Counted, LogOk, WfBody, WfCoro;
    var w' := Scoped(w, c, prev);
    forall m | m in w'.mem ensures WfBody(w'.mem, w'.ctxs, LiveOf(w'), w'.mem[m].body) {
      WfBodyMore(w.mem, w'.mem, w.ctxs, w'.ctxs, LiveOf(w), LiveOf(w'), w'.mem[m].body);
    }
    WfRootsMore(w.mem, w'.mem, w.ctxs, w'.ctxs, LiveOf(w), LiveOf(w'), w.roots);
  }

  lemma ScopedRanked(w: World, c: Ptr, prev: Ptr)
    requires Addresses(w.mem, w.ctxs) && w.scopes <= w.ctxs.Keys && MayScope(w, c, prev) && Ranked(w.ctxs, LiveOf(w), w.rank)
    requires forall d | d in w.scopes :: IsContext(w.ctxs, w.scopes, w.ctxs[d].prev)
    ensures var w' := Scoped(w, c, prev); Ranked(w'.ctxs, LiveOf(w'), w'.rank)
  {
    forall d | d in LiveOf(w) && d in w.ctxs ensures d in w.scopes && d != c && w.ctxs[d].prev != c {
    }
  }

  lemma ScopedRemembered(w: World, c: Ptr, prev: Ptr)
    requires MayScope(w, c, prev) && Remembered(w.mem, w.ctxs, w.scopes, w.lists)
    ensures var w' := Scoped(w, c, prev); Remembered(w'.mem, w'.ctxs, w'.scopes, w'.lists)
  {
    hide OldBody;
  }

  lemma ScopedHeld(w: World, c: Ptr, prev: Ptr)
    requires MayScope(w, c, prev) && HeldClosed(HoldingOf(w), ToSet(w.lists.scopes))
    requires w.scopes <= w.ctxs.Keys
    ensures HeldClosed(HoldingOf(Scoped(w, c, prev)), ToSet(w.lists.scopes))
  {
    hide ToSet;
  }

  lemma ScopedHolders(w: World, c: Ptr, prev: Ptr, d: Ptr)
    requires MayScope(w, c, prev) && HeldClosed(HoldingOf(w), ToSet(w.lists.scopes)) && w.scopes <= w.ctxs.Keys
    ensures Holders(HoldingOf(Scoped(w, c, prev)), d) == Holders(HoldingOf(w), d) + (if d == prev then 1 else 0)
    ensures d == c ==> Holders(HoldingOf(w), d) == 0
  {
    var h0, h := HoldingOf(w), HoldingOf(Scoped(w, c, prev));
    assert Closures(h, d) == Closures(h0, d) && FrameUses(h, d) == FrameUses(h0, d);
    MoreInners(h0, h, c, Context(0, 0, prev, 0, 0, false), d);
    if d == c {
      NobodyHolds(w, c);
    }
    hide Closures, FrameUses, Inners, HeldClosed, Referred;
  }

  lemma MoreInners(h0: Holding, h: Holding, c: Ptr, n: Context, d: Ptr)
    requires c !in h0.ctxs && c !in h0.scopes && h.ctxs == h0.ctxs[c := n] && h.scopes == h0.scopes + {c}
    ensures |Inners(h, d)| == |Inners(h0, d)| + (if d == n.prev then 1 else 0)
  {
    if d == n.prev {
      assert Inners(h, d) == Inners(h0, d) + {c} && c !in Inners(h0, d);
    } else {
      assert Inners(h, d) == Inners(h0, d);
    }
  }

  /** Nobody holds a scope that is not there yet. */
  lemma NobodyHolds(w: World, c: Ptr)
    requires HeldClosed(HoldingOf(w), ToSet(w.lists.scopes)) && w.scopes <= w.ctxs.Keys && c !in w.ctxs && c != 0
    ensures Holders(HoldingOf(w), c) == 0
  {
    var h0 := HoldingOf(w);
    assert Closures(h0, c) == {} && Inners(h0, c) == {} && FrameUses(h0, c) == {};
  }

  lemma ScopedCounted(w: World, c: Ptr, prev: Ptr)
    requires MayScope(w, c, prev) && HeldClosed(HoldingOf(w), ToSet(w.lists.scopes)) && w.scopes <= w.ctxs.Keys
    requires Counted(HoldingOf(w), w.refs, ToSet(w.lists.scopes), 0)
    ensures var w' := Scoped(w, c, prev); Counted(HoldingOf(w'), w'.refs, ToSet(w.lists.scopes), 0)
  {
    var w' := Scoped(w, c, prev);
    NullNotHeld(HoldingOf(w), ToSet(w.lists.scopes));
    forall d
      ensures Holders(HoldingOf(w'), d) == Holders(HoldingOf(w), d) + (if d == prev then 1 else 0)
      ensures d == c ==> Holders(HoldingOf(w), d) == 0
    {
      ScopedHolders(w, c, prev, d);
    }
    hide Holders, HeldClosed, ToSet;
  }

  lemma ScopeOk(w: World, c: Ptr, prev: Ptr)
    requires Ok(w) && MayScope(w, c, prev)
    ensures Ok(Scoped(w, c, prev))
  {
    ScopedClosed(w, c, prev);
    hide Remembered, HeldClosed, Counted, LogOk, WfBody, WfRoots, Ranked;
    ScopedRemembered(w, c, prev);
    ScopedHeld(w, c, prev);
    ScopedCounted(w, c, prev);
    forall d | d in w.scopes ensures IsContext(w.ctxs, w.scopes, w.ctxs[d].prev) {
      assert WfContext(w.mem, w.ctxs, LiveOf(w), w.ctxs[d]);
    }
    ScopedRanked(w, c, prev);
  }

  // ---------------------------------------------------------------------------
  // Roots

  /** Coroutine `k` in place of the one there was. */
  ghost function WithCoro(w: World, k: nat, co: Coro): World
    requires k < |w.roots.coros|
  {
    w.(roots := w.roots.(coros := w.roots.coros[k := co]))
  }

  lemma WfRootsSet(w: World, k: nat, co: Coro)
    requires k < |w.roots.coros| && WfRoots(w.mem, w.ctxs, LiveOf(w), w.roots) && WfCoro(w.mem, w.ctxs, LiveOf(w), co)
    ensures WfRoots(w.mem, w.ctxs, LiveOf(w), WithCoro(w, k, co).roots)
  {
    hide WfCoro, IsObject;
  }

  /** Values come and go on a coroutine's stack. */
  lemma StackOk(w: World, k: nat, co: Coro)
    requires Ok(w) && k < |w.roots.coros| && WfCoro(w.mem, w.ctxs, LiveOf(w), co) && co.frames == w.roots.coros[k].frames
    ensures Ok(WithCoro(w, k, co))
  {
    hide Closed, Ranked, Remembered, WfRoots, LogOk, WfCoro;
    WfRootsSet(w, k, co);
    var h0, h := HoldingOf(w), HoldingOf(WithCoro(w, k, co));
    assert forall j | 0 <= j < |h.coros| :: h.coros[j].frames == h0.coros[j].frames;
    forall c ensures Holders(h, c) == Holders(h0, c) {
      assert Closures(h, c) == Closures(h0, c) && Inners(h, c) == Inners(h0, c) && FrameUses(h, c) == FrameUses(h0, c);
    }
    hide Holders, ToSet;
  }

  /** A frame takes a reference to its scope. */
  ghost function Entered(w: World, k: nat, co: Coro, c: Ptr): World
    requires k < |w.roots.coros|
  {
    WithCoro(w, k, co).(refs := Referred(w.refs, c))
  }

  lemma EnteredHolders(w: World, k: nat, co: Coro, c: Ptr, d: Ptr)
    requires k < |w.roots.coros| && co.frames == w.roots.coros[k].frames + [c]
    ensures Holders(HoldingOf(Entered(w, k, co, c)), d) == Holders(HoldingOf(w), d) + (if d == c then 1 else 0)
  {
    var h0, h := HoldingOf(w), HoldingOf(Entered(w, k, co, c));
    assert Closures(h, d) == Closures(h0, d) && Inners(h, d) == Inners(h0, d);
    hide Closures, Inners, Referred;
    MoreFrameUses(h0, h, k, co, c, d);
  }

  ghost predicate UsedAt(coros: seq<Coro>, x: (int, int), d: Ptr) {
    0 <= x.0 < |coros| && 0 <= x.1 < |coros[x.0].frames| && coros[x.0].frames[x.1] == d
  }

  lemma FrameUse(h: Holding, x: (int, int), d: Ptr)
    ensures x in FrameUses(h, d) <==> UsedAt(h.coros, x, d)
  {
  }

  lemma UsedMore(coros: seq<Coro>, k: nat, co: Coro, c: Ptr, d: Ptr, x: (int, int))
    requires k < |coros| && co.frames == coros[k].frames + [c]
    ensures UsedAt(coros[k := co], x, d) <==> UsedAt(coros, x, d) || (d == c && x == (k as int, |coros[k].frames| as int))
  {
  }

  lemma MoreFrameUses(h0: Holding, h: Holding, k: nat, co: Coro, c: Ptr, d: Ptr)
    requires k < |h0.coros| && h.coros == h0.coros[k := co] && co.frames == h0.coros[k].frames + [c]
    ensures |FrameUses(h, d)| == |FrameUses(h0, d)| + (if d == c then 1 else 0)
  {
    hide FrameUses;
    var at := (k as int, |h0.coros[k].frames| as int);
    FrameUse(h0, at, d);
    assert !UsedAt(h0.coros, at, d);
    hide UsedAt;
    forall x ensures x in FrameUses(h, d) <==> x in FrameUses(h0, d) || (d == c && x == at) {
      FrameUse(h0, x, d);
      FrameUse(h, x, d);
      UsedMore(h0.coros, k, co, c, d, x);
    }
    if d == c {
      assert FrameUses(h, d) == FrameUses(h0, d) + {at};
    } else {
      assert FrameUses(h, d) == FrameUses(h0, d);
    }
  }

  lemma EnterOk(w: World, k: nat, co: Coro, c: Ptr)
    requires Ok(w) && k < |w.roots.coros| && IsContext(w.ctxs, w.scopes, c)
    requires co == w.roots.coros[k].(frames := w.roots.coros[k].frames + [c])
    ensures Ok(Entered(w, k, co, c))
  {
    hide Closed, Ranked, Remembered, LogOk;
    var h0, h := HoldingOf(w), HoldingOf(Entered(w, k, co, c));
    assert WfCoro(w.mem, w.ctxs, LiveOf(w), w.roots.coros[k]);
    WfRootsSet(w, k, co);
    hide WfRoots;
    assert HeldClosed(h, ToSet(w.lists.scopes)) by {
      hide Counted, ToSet;
      forall j, i | 0 <= j < |h.coros| && 0 <= i < |h.coros[j].frames| ensures Held(h, h.coros[j].frames[i]) {
        if j == k && i == |h0.coros[k].frames| {
          assert h.coros[j].frames[i] == c;
        } else {
          assert h.coros[j].frames[i] == h0.coros[j].frames[i];
        }
      }
    }
    forall d ensures Holders(h, d) == Holders(h0, d) + (if d == c then 1 else 0) {
      EnteredHolders(w, k, co, c, d);
    }
    hide Holders, HeldClosed, ToSet;
  }

  /** A frame that goes leaves the reference to its scope to be given up. */
  lemma LeaveHolders(w: World, k: nat, co: Coro, c: Ptr)
    requires k < |w.roots.coros| && w.roots.coros[k].frames == co.frames + [c]
    requires HeldClosed(HoldingOf(w), ToSet(w.lists.scopes)) && Counted(HoldingOf(w), w.refs, ToSet(w.lists.scopes), 0)
    ensures var h := HoldingOf(WithCoro(w, k, co));
            HeldClosed(h, ToSet(w.lists.scopes)) && Counted(h, w.refs, ToSet(w.lists.scopes), c) && Held(h, c)
  {
    var h0, h := HoldingOf(w), HoldingOf(WithCoro(w, k, co));
    forall d ensures Holders(h0, d) == Holders(h, d) + (if d == c then 1 else 0) {
      EnteredHolders(WithCoro(w, k, co), k, w.roots.coros[k], c, d);
      assert HoldingOf(Entered(WithCoro(w, k, co), k, w.roots.coros[k], c)) == h0;
    }
    hide Holders, ToSet;
    assert Held(h0, h0.coros[k].frames[|co.frames|]);
    forall j, i | 0 <= j < |h.coros| && 0 <= i < |h.coros[j].frames| ensures Held(h, h.coros[j].frames[i]) {
      assert h.coros[j].frames[i] == h0.coros[j].frames[i];
    }
  }

  /** With fewer scopes, all that is held still there, the state is as sound as before. */
  lemma FewerScopesOk(w: World, w': World)
    requires Ok(w) && WfRoots(w.mem, w.ctxs, LiveOf(w), w'.roots)
    requires w' == w.(scopes := w'.scopes, refs := w'.refs, roots := w'.roots) && w'.scopes <= w.scopes
    requires HeldClosed(HoldingOf(w'), ToSet(w.lists.scopes)) && Counted(HoldingOf(w'), w'.refs, ToSet(w.lists.scopes), 0)
    ensures Ok(w')
  {
    hide Counted, LogOk, Ranked, Remembered;
    forall m | m in w'.mem ensures WfBody(w'.mem, w'.ctxs, LiveOf(w'), w'.mem[m].body) {
      assert w'.mem[m].body.Object? ==> Held(HoldingOf(w'), w'.mem[m].body.scope);
      FewerBody(w, w', w'.mem[m].body);
    }
    FewerContexts(w, w');
    FewerRoots(w, w');
    FewerRemembered(w, w');
  }

  lemma FewerBody(w: World, w': World, n: Body)
    requires WfBody(w.mem, w.ctxs, LiveOf(w), n) && w'.mem == w.mem && w'.ctxs == w.ctxs
    requires n.Object? ==> n.scope == 0 || n.scope in w'.scopes
    ensures WfBody(w'.mem, w'.ctxs, LiveOf(w'), n)
  {
  }

  lemma FewerContexts(w: World, w': World)
    requires Closed(w.mem, w.ctxs, LiveOf(w)) && w'.mem == w.mem && w'.ctxs == w.ctxs && w'.scopes <= w.scopes
    requires HeldClosed(HoldingOf(w'), ToSet(w.lists.scopes)) && Addresses(w.mem, w.ctxs) && w.scopes <= w.ctxs.Keys
    ensures forall c | c in LiveOf(w') && c in w'.ctxs :: WfContext(w'.mem, w'.ctxs, LiveOf(w'), w'.ctxs[c])
  {
    forall c | c in LiveOf(w') && c in w'.ctxs ensures WfContext(w'.mem, w'.ctxs, LiveOf(w'), w'.ctxs[c]) {
      assert c in w'.scopes && WfContext(w.mem, w.ctxs, LiveOf(w), w.ctxs[c]) && Held(HoldingOf(w'), w.ctxs[c].prev);
    }
  }

  lemma FewerRoots(w: World, w': World)
    requires WfRoots(w.mem, w.ctxs, LiveOf(w), w'.roots) && w'.mem == w.mem && w'.ctxs == w.ctxs
    requires HeldClosed(HoldingOf(w'), ToSet(w.lists.scopes))
    ensures WfRoots(w'.mem, w'.ctxs, LiveOf(w'), w'.roots)
  {
    forall k | 0 <= k < |w'.roots.coros| ensures WfCoro(w'.mem, w'.ctxs, LiveOf(w'), w'.roots.coros[k]) {
      assert WfCoro(w.mem, w.ctxs, LiveOf(w), w'.roots.coros[k]);
      forall i | 0 <= i < |w'.roots.coros[k].frames| ensures IsContext(w'.ctxs, LiveOf(w'), w'.roots.coros[k].frames[i]) {
        assert Held(HoldingOf(w'), w'.roots.coros[k].frames[i]);
      }
    }
  }

  lemma FewerRemembered(w: World, w': World)
    requires Remembered(w.mem, w.ctxs, w.scopes, w.lists) && Ranked(w.ctxs, LiveOf(w), w.rank)
    requires w' == w.(scopes := w'.scopes, refs := w'.refs, roots := w'.roots) && w'.scopes <= w.scopes
    requires HeldClosed(HoldingOf(w'), ToSet(w.lists.scopes))
    ensures Remembered(w'.mem, w'.ctxs, w'.scopes, w'.lists) && Ranked(w'.ctxs, LiveOf(w'), w'.rank)
  {
    hide OldBody, Held;
    assert ToSet(w.lists.scopes) <= w'.scopes;
    assert forall c | c in w.lists.scopes :: c in ToSet(w.lists.scopes);
  }
}
