/** Paths through memory, what is reachable, and what it means that a collection
    left the reachable graph as it was. */
module GcTheorem {
  import opened GcGraph

  datatype Edge = Slots | Proto | Item(i: nat) | Scope | Val(i: nat) | CtxObj | CtxSlots | CtxPrev

  /** Where the pointer `e` of the node or context at `p` leads; 0 if there is none. */
  ghost function Target(mem: map<Ptr, Node>, ctxs: map<Ptr, Context>, p: Ptr, e: Edge): Ptr {
    if p in mem then
      match mem[p].body
      case Object(_, slots, proto, items, scope) =>
        (match e
         case Slots => slots
         case Proto => proto
         case Item(i) => if i < |items| then items[i] else 0
         case Scope => scope
         case _ => 0)
      case Table(entries, _, _) =>
        if e.Val? && e.i < |entries| then entries[e.i].val else 0
    else if p in ctxs then
      match e
      case CtxObj => ctxs[p].obj
      case CtxSlots => ctxs[p].slots
      case CtxPrev => ctxs[p].prev
      case _ => 0
    else 0
  }

  ghost function Follow(mem: map<Ptr, Node>, ctxs: map<Ptr, Context>, p: Ptr, path: seq<Edge>): Ptr
    decreases |path|
  {
    if path == [] then p
    else Target(mem, ctxs, Follow(mem, ctxs, p, path[..|path| - 1]), path[|path| - 1])
  }

  ghost function RootPtrs(r: Roots): set<Ptr> {
    {r.except, r.loaded, r.none}
    + (set i | 0 <= i < |r.protos| :: r.protos[i])
    + (set k | 0 <= k < |r.coros| :: r.coros[k].exitv)
    + (set k, i | 0 <= k < |r.coros| && 0 <= i < |r.coros[k].stack| :: r.coros[k].stack[i])
    + (set k, i | 0 <= k < |r.coros| && 0 <= i < |r.coros[k].frames| :: r.coros[k].frames[i])
  }

  ghost predicate Reachable(mem: map<Ptr, Node>, ctxs: map<Ptr, Context>, r: Roots, a: Ptr) {
    exists p, path :: p in RootPtrs(r) && Follow(mem, ctxs, p, path) == a
  }

  ghost function ReachSet(mem: map<Ptr, Node>, ctxs: map<Ptr, Context>, r: Roots): set<Ptr> {
    set a | a in mem.Keys + ctxs.Keys && Reachable(mem, ctxs, r, a)
  }

  lemma ReachRoot(mem: map<Ptr, Node>, ctxs: map<Ptr, Context>, r: Roots, p: Ptr)
    requires p in RootPtrs(r)
    ensures Reachable(mem, ctxs, r, p)
  {
    assert Follow(mem, ctxs, p, []) == p;
  }

  lemma ReachStep(mem: map<Ptr, Node>, ctxs: map<Ptr, Context>, r: Roots, a: Ptr, e: Edge)
    requires Reachable(mem, ctxs, r, a)
    ensures Reachable(mem, ctxs, r, Target(mem, ctxs, a, e))
  {
    var p, path :| p in RootPtrs(r) && Follow(mem, ctxs, p, path) == a;
    var longer := path + [e];
    assert longer[..|longer| - 1] == path;
    assert Follow(mem, ctxs, p, longer) == Target(mem, ctxs, a, e);
  }

  ghost predicate Inside(live: set<Ptr>, p: Ptr) {
    p == 0 || p in live
  }

  lemma TargetInside(mem: map<Ptr, Node>, ctxs: map<Ptr, Context>, live: set<Ptr>, p: Ptr, e: Edge)
    requires Closed(mem, ctxs, live) && Inside(live, p) && Addresses(mem, ctxs)
    ensures Inside(live, Target(mem, ctxs, p, e))
  {
    if p in live && p in mem {
      assert WfBody(mem, ctxs, live, mem[p].body);
    } else if p in live && p in ctxs {
      assert WfContext(mem, ctxs, live, ctxs[p]);
    }
  }

  lemma {:induction false} FollowInside(mem: map<Ptr, Node>, ctxs: map<Ptr, Context>, live: set<Ptr>, p: Ptr, path: seq<Edge>)
    requires Closed(mem, ctxs, live) && Inside(live, p) && Addresses(mem, ctxs)
    ensures Inside(live, Follow(mem, ctxs, p, path))
    decreases |path|
  {
    hide Closed, Target;
    if path != [] {
      var front := path[..|path| - 1];
      FollowInside(mem, ctxs, live, p, front);
      TargetInside(mem, ctxs, live, Follow(mem, ctxs, p, front), path[|path| - 1]);
    }
  }

  lemma RootsInside(mem: map<Ptr, Node>, ctxs: map<Ptr, Context>, live: set<Ptr>, r: Roots, p: Ptr)
    requires WfRoots(mem, ctxs, live, r) && p in RootPtrs(r)
    ensures Inside(live, p)
  {
  }

  /** What is reachable is live, closed under every edge, and holds the roots. */
  lemma ReachClosed(mem: map<Ptr, Node>, ctxs: map<Ptr, Context>, live: set<Ptr>, r: Roots)
    requires Addresses(mem, ctxs) && Closed(mem, ctxs, live) && WfRoots(mem, ctxs, live, r) && live <= mem.Keys + ctxs.Keys
    ensures var reach := ReachSet(mem, ctxs, r);
            reach <= live && Closed(mem, ctxs, reach) && WfRoots(mem, ctxs, reach, r)
  {
    var reach := ReachSet(mem, ctxs, r);
    forall a | a in reach ensures a in live {
      var p, path :| p in RootPtrs(r) && Follow(mem, ctxs, p, path) == a;
      RootsInside(mem, ctxs, live, r, p);
      FollowInside(mem, ctxs, live, p, path);
    }
    forall a | a in reach && a in mem ensures WfBody(mem, ctxs, reach, mem[a].body) {
      ReachBody(mem, ctxs, live, r, a);
    }
    forall c | c in reach && c in ctxs ensures WfContext(mem, ctxs, reach, ctxs[c]) {
      ReachContext(mem, ctxs, live, r, c);
    }
    ReachRoots(mem, ctxs, live, r);
  }

  lemma ReachTarget(mem: map<Ptr, Node>, ctxs: map<Ptr, Context>, r: Roots, a: Ptr, e: Edge)
    requires a in ReachSet(mem, ctxs, r)
    requires var q := Target(mem, ctxs, a, e); q == 0 || q in mem || q in ctxs
    ensures Inside(ReachSet(mem, ctxs, r), Target(mem, ctxs, a, e))
  {
    hide Target, Reachable;
    ReachStep(mem, ctxs, r, a, e);
  }

  lemma ReachBody(mem: map<Ptr, Node>, ctxs: map<Ptr, Context>, live: set<Ptr>, r: Roots, a: Ptr)
    requires a in ReachSet(mem, ctxs, r) && a in mem && WfBody(mem, ctxs, live, mem[a].body)
    ensures WfBody(mem, ctxs, ReachSet(mem, ctxs, r), mem[a].body)
  {
    hide ReachSet;
    match mem[a].body
    case Object(_, slots, proto, items, scope) =>
      ReachTarget(mem, ctxs, r, a, Slots);
      ReachTarget(mem, ctxs, r, a, Proto);
      ReachTarget(mem, ctxs, r, a, Scope);
      forall i | 0 <= i < |items| ensures IsObject(mem, ReachSet(mem, ctxs, r), items[i]) {
        ReachTarget(mem, ctxs, r, a, Item(i));
      }
    case Table(entries, _, _) =>
      forall i | 0 <= i < |entries| ensures IsObject(mem, ReachSet(mem, ctxs, r), entries[i].val) {
        ReachTarget(mem, ctxs, r, a, Val(i));
      }
  }

  lemma ReachContext(mem: map<Ptr, Node>, ctxs: map<Ptr, Context>, live: set<Ptr>, r: Roots, c: Ptr)
    requires Addresses(mem, ctxs)
    requires c in ReachSet(mem, ctxs, r) && c in ctxs && WfContext(mem, ctxs, live, ctxs[c])
    ensures WfContext(mem, ctxs, ReachSet(mem, ctxs, r), ctxs[c])
  {
    hide ReachSet;
    assert c !in mem;
    ReachTarget(mem, ctxs, r, c, CtxObj);
    ReachTarget(mem, ctxs, r, c, CtxSlots);
    ReachTarget(mem, ctxs, r, c, CtxPrev);
  }

  lemma ReachRoots(mem: map<Ptr, Node>, ctxs: map<Ptr, Context>, live: set<Ptr>, r: Roots)
    requires WfRoots(mem, ctxs, live, r)
    ensures WfRoots(mem, ctxs, ReachSet(mem, ctxs, r), r)
  {
    hide Reachable;
    var reach := ReachSet(mem, ctxs, r);
    forall p | p in RootPtrs(r) ensures Reachable(mem, ctxs, r, p) {
      ReachRoot(mem, ctxs, r, p);
    }
    forall k | 0 <= k < |r.coros| ensures WfCoro(mem, ctxs, reach, r.coros[k]) {
      assert WfCoro(mem, ctxs, live, r.coros[k]);
      assert r.coros[k].exitv in RootPtrs(r);
      assert forall i | 0 <= i < |r.coros[k].stack| :: r.coros[k].stack[i] in RootPtrs(r);
      assert forall i | 0 <= i < |r.coros[k].frames| :: r.coros[k].frames[i] in RootPtrs(r);
    }
    assert forall i | 0 <= i < |r.protos| :: r.protos[i] in RootPtrs(r);
  }

  // ---------------------------------------------------------------------------
  // Isomorphic memories

  /** The address `p` has after nodes moved as `phi` says; contexts and null stay. */
  ghost function Ren(phi: map<Ptr, Ptr>, p: Ptr): Ptr {
    if p in phi then phi[p] else p
  }

  ghost predicate Covered(phi: map<Ptr, Ptr>, scopes: set<Ptr>, p: Ptr) {
    p == 0 || p in phi || p in scopes
  }

  /** The same contents, pointers aside. */
  ghost predicate SameContents(o: Body, n: Body) {
    match o
    case Object(id, _, _, items, _) => n.Object? && n.id == id && |n.items| == |items|
    case Table(entries, _, shared) =>
      n.Table? && n.shared == shared && |n.entries| == |entries|
      && forall i | 0 <= i < |entries| :: n.entries[i].key == entries[i].key
  }

  /** `phi` is an isomorphism from the part of the old memory it covers, with the
      contexts in `scopes`, to the new memory. */
  ghost predicate Isomorphic(
    mem0: map<Ptr, Node>, ctxs0: map<Ptr, Context>, mem1: map<Ptr, Node>, ctxs1: map<Ptr, Context>,
    phi: map<Ptr, Ptr>, scopes: set<Ptr>)
  {
    && Addresses(mem0, ctxs0) && Addresses(mem1, ctxs1)
    && scopes <= ctxs0.Keys && scopes <= ctxs1.Keys
    && (forall a | a in phi :: a in mem0 && phi[a] in mem1 && SameContents(mem0[a].body, mem1[phi[a]].body))
    && (forall a, a' | a in phi && a' in phi && phi[a] == phi[a'] :: a == a')
    && (forall p, e | p in phi || p in scopes ::
          Target(mem1, ctxs1, Ren(phi, p), e) == Ren(phi, Target(mem0, ctxs0, p, e))
          && Covered(phi, scopes, Target(mem0, ctxs0, p, e)))
  }

  /** Every path leads to the moved version of where it led before. */
  lemma {:induction false} PathsKept(
    mem0: map<Ptr, Node>, ctxs0: map<Ptr, Context>, mem1: map<Ptr, Node>, ctxs1: map<Ptr, Context>,
    phi: map<Ptr, Ptr>, scopes: set<Ptr>, p: Ptr, path: seq<Edge>)
    requires Isomorphic(mem0, ctxs0, mem1, ctxs1, phi, scopes) && Covered(phi, scopes, p)
    ensures Follow(mem1, ctxs1, Ren(phi, p), path) == Ren(phi, Follow(mem0, ctxs0, p, path))
    ensures Covered(phi, scopes, Follow(mem0, ctxs0, p, path))
    decreases |path|
  {
    if path != [] {
      var front := path[..|path| - 1];
      PathsKept(mem0, ctxs0, mem1, ctxs1, phi, scopes, p, front);
      var q, e := Follow(mem0, ctxs0, p, front), path[|path| - 1];
      if q == 0 {
        assert 0 !in phi && 0 !in mem0 && 0 !in ctxs0 && 0 !in mem1 && 0 !in ctxs1;
      } else {
        assert Target(mem1, ctxs1, Ren(phi, q), e) == Ren(phi, Target(mem0, ctxs0, q, e));
      }
    }
  }

  /** Sharing and cycles are kept: two paths meet after the collection exactly when
      they met before it. */
  lemma SharingKept(
    mem0: map<Ptr, Node>, ctxs0: map<Ptr, Context>, mem1: map<Ptr, Node>, ctxs1: map<Ptr, Context>,
    phi: map<Ptr, Ptr>, scopes: set<Ptr>, p: Ptr, x: seq<Edge>, q: Ptr, y: seq<Edge>)
    requires Isomorphic(mem0, ctxs0, mem1, ctxs1, phi, scopes) && Covered(phi, scopes, p) && Covered(phi, scopes, q)
    ensures Follow(mem1, ctxs1, Ren(phi, p), x) == Follow(mem1, ctxs1, Ren(phi, q), y)
            <==> Follow(mem0, ctxs0, p, x) == Follow(mem0, ctxs0, q, y)
  {
    PathsKept(mem0, ctxs0, mem1, ctxs1, phi, scopes, p, x);
    PathsKept(mem0, ctxs0, mem1, ctxs1, phi, scopes, q, y);
    var a, c := Follow(mem0, ctxs0, p, x), Follow(mem0, ctxs0, q, y);
    assert a in phi ==> phi[a] in mem1;
    assert c in phi ==> phi[c] in mem1;
  }

  /** Nothing a path can lead to after the collection lies outside the new memory:
      no pointer into a heap that was given back. */
  lemma NothingDangles(
    mem0: map<Ptr, Node>, ctxs0: map<Ptr, Context>, mem1: map<Ptr, Node>, ctxs1: map<Ptr, Context>,
    phi: map<Ptr, Ptr>, scopes: set<Ptr>, p: Ptr, path: seq<Edge>)
    requires Isomorphic(mem0, ctxs0, mem1, ctxs1, phi, scopes) && Covered(phi, scopes, p)
    ensures var q := Follow(mem1, ctxs1, Ren(phi, p), path);
            q == 0 || q in mem1 || q in ctxs1
  {
    PathsKept(mem0, ctxs0, mem1, ctxs1, phi, scopes, p, path);
  }
}
