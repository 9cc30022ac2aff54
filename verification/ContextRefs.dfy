/** Who holds a context, and what the reference counts are worth. */
module ContextRefs {
  import opened GcGraph

  /** The holders of contexts: the function objects in `closures`, the scopes nested in
      another one among `scopes`, and the frames of the coroutines. */
  datatype Holding = Holding(
    mem: map<Ptr, Node>, closures: set<Ptr>,
    ctxs: map<Ptr, Context>, scopes: set<Ptr>,
    coros: seq<Coro>)

  ghost function Closures(h: Holding, c: Ptr): set<Ptr> {
    set a | a in h.closures && a in h.mem && h.mem[a].body.Object? && h.mem[a].body.scope == c
  }

  ghost function Inners(h: Holding, c: Ptr): set<Ptr> {
    set d | d in h.scopes && d in h.ctxs && h.ctxs[d].prev == c
  }

  ghost function FrameUses(h: Holding, c: Ptr): set<(int, int)> {
    set k, i | 0 <= k < |h.coros| && 0 <= i < |h.coros[k].frames| && h.coros[k].frames[i] == c :: (k, i)
  }

  ghost function Holders(h: Holding, c: Ptr): nat {
    |Closures(h, c)| + |Inners(h, c)| + |FrameUses(h, c)|
  }

  /** Every count is the number of holders.  `listed` are the contexts the remembered set also
      holds; `spare` has one reference more than it needs. */
  ghost predicate Counted(h: Holding, refs: map<Ptr, int>, listed: set<Ptr>, spare: Ptr) {
    forall c | c in h.scopes ::
      && c in refs && c in h.ctxs
      && refs[c] == Holders(h, c) + (if c in listed then 1 else 0) + (if c == spare then 1 else 0)
  }

  ghost predicate Held(h: Holding, c: Ptr) {
    c == 0 || c in h.scopes
  }

  /** Every context somebody holds is still there. */
  ghost predicate HeldClosed(h: Holding, listed: set<Ptr>) {
    && (forall a | a in h.closures && a in h.mem && h.mem[a].body.Object? :: Held(h, h.mem[a].body.scope))
    && (forall c | c in h.scopes && c in h.ctxs :: Held(h, h.ctxs[c].prev))
    && (forall k, i | 0 <= k < |h.coros| && 0 <= i < |h.coros[k].frames| :: Held(h, h.coros[k].frames[i]))
    && listed <= h.scopes
    && 0 !in h.scopes
  }

  /** Giving up a reference nobody else backs: the context goes, nobody misses it, and
      the reference it had to its enclosing scope is the next to be given up. */
  lemma Release(h: Holding, refs: map<Ptr, int>, listed: set<Ptr>, c: Ptr)
    requires HeldClosed(h, listed) && c in h.scopes && Counted(h, refs, listed, c) && refs[c] == 1
    ensures var h' := h.(scopes := h.scopes - {c});
            HeldClosed(h', listed) && Counted(h', refs, listed, h.ctxs[c].prev) && Held(h', h.ctxs[c].prev)
  {
    var h' := h.(scopes := h.scopes - {c});
    var prev := h.ctxs[c].prev;
    assert Holders(h, c) == 0 && c !in listed;
    NoHolders(h, c);
    NoLoop(h, c);
    forall d | d in h'.scopes
      ensures refs[d] == Holders(h', d) + (if d in listed then 1 else 0) + (if d == prev then 1 else 0)
    {
      FewerInners(h, c, d);
    }
  }

  lemma NoLoop(h: Holding, c: Ptr)
    requires c in h.scopes && c in h.ctxs && Holders(h, c) == 0
    ensures h.ctxs[c].prev != c
  {
    NoHolders(h, c);
  }

  lemma NoHolders(h: Holding, c: Ptr)
    requires Holders(h, c) == 0
    ensures Closures(h, c) == {} && Inners(h, c) == {} && FrameUses(h, c) == {}
    ensures forall a | a in h.closures && a in h.mem && h.mem[a].body.Object? :: h.mem[a].body.scope != c
    ensures forall d | d in h.scopes && d in h.ctxs :: h.ctxs[d].prev != c
    ensures forall k, i | 0 <= k < |h.coros| && 0 <= i < |h.coros[k].frames| :: h.coros[k].frames[i] != c
  {
    forall a | a in h.closures && a in h.mem && h.mem[a].body.Object? ensures h.mem[a].body.scope != c {
      assert a !in Closures(h, c);
    }
    forall d | d in h.scopes && d in h.ctxs ensures h.ctxs[d].prev != c {
      assert d !in Inners(h, c);
    }
    forall k, i | 0 <= k < |h.coros| && 0 <= i < |h.coros[k].frames| ensures h.coros[k].frames[i] != c {
      assert (k, i) !in FrameUses(h, c);
    }
  }

  lemma FewerInners(h: Holding, c: Ptr, d: Ptr)
    requires c in h.scopes && c in h.ctxs
    ensures var h' := h.(scopes := h.scopes - {c});
            Holders(h', d) == Holders(h, d) - (if h.ctxs[c].prev == d then 1 else 0)
  {
    var h' := h.(scopes := h.scopes - {c});
    assert Closures(h', d) == Closures(h, d) && FrameUses(h', d) == FrameUses(h, d);
    assert Inners(h', d) == Inners(h, d) - {c};
  }

  /** A function object that goes gives up its scope. */
  lemma DropClosure(h: Holding, refs: map<Ptr, int>, listed: set<Ptr>, a: Ptr)
    requires HeldClosed(h, listed) && Counted(h, refs, listed, 0)
    requires a in h.closures && a in h.mem && h.mem[a].body.Object?
    ensures var h' := h.(closures := h.closures - {a});
            HeldClosed(h', listed) && Counted(h', refs, listed, h.mem[a].body.scope) && Held(h', h.mem[a].body.scope)
  {
    var h' := h.(closures := h.closures - {a});
    forall c | c in h.scopes
      ensures Holders(h', c) == Holders(h, c) - (if h.mem[a].body.scope == c then 1 else 0)
    {
      assert Inners(h', c) == Inners(h, c) && FrameUses(h', c) == FrameUses(h, c);
      assert Closures(h', c) == Closures(h, c) - {a};
    }
  }

  /** Taking a context off the remembered set gives up the reference it held. */
  lemma Unlist(h: Holding, refs: map<Ptr, int>, listed: set<Ptr>, c: Ptr)
    requires HeldClosed(h, listed) && Counted(h, refs, listed, 0) && c in listed
    ensures HeldClosed(h, listed - {c}) && Counted(h, refs, listed - {c}, c)
  {
  }

  lemma NullNotHeld(h: Holding, listed: set<Ptr>)
    requires HeldClosed(h, listed)
    ensures 0 !in h.scopes && listed <= h.scopes
  {
  }

  lemma ReleasedApart(h: Holding, refs: map<Ptr, int>, listed: set<Ptr>, c: Ptr)
    requires Counted(h, refs, listed, c) && c in h.scopes && refs[c] == 1
    ensures h.ctxs[c].prev != c
  {
    NoLoop(h, c);
  }

  /** The count of a context that has gone does not matter. */
  lemma SpendLast(h: Holding, refs: map<Ptr, int>, listed: set<Ptr>, c: Ptr, spare: Ptr)
    requires Counted(h, refs, listed, spare) && c !in h.scopes && c in refs
    ensures Counted(h, refs[c := refs[c] - 1], listed, spare)
  {
    hide Holders;
  }

  lemma Spend(h: Holding, refs: map<Ptr, int>, listed: set<Ptr>, c: Ptr)
    requires HeldClosed(h, listed) && Counted(h, refs, listed, c) && c in h.scopes
    ensures Counted(h, refs[c := refs[c] - 1], listed, 0)
  {
    hide Holders;
  }

  // ---------------------------------------------------------------------------
  // What giving up a reference comes to

  /** Every scope is held by somebody. */
  ghost predicate AllHeld(scopes: set<Ptr>, refs: map<Ptr, int>) {
    forall c | c in scopes :: c in refs && refs[c] > 0
  }

  /** The scopes inside `d` that have gone. */
  ghost function Gone(h: Holding, left: Holding, d: Ptr): set<Ptr> {
    set e | e in h.scopes && e !in left.scopes && e in h.ctxs && h.ctxs[e].prev == d
  }

  /** One reference to `c` was given up, and with every scope that has gone the one to the
      scope around it, except that the one to `x` is still to be; a scope has gone exactly if
      that brought its count down to nothing. */
  ghost predicate GaveUp(h: Holding, left: Holding, refs0: map<Ptr, int>, refs1: map<Ptr, int>, c: Ptr, x: Ptr) {
    && left.scopes <= h.scopes && refs1.Keys == refs0.Keys && h.scopes <= refs0.Keys
    && (forall d | d in h.scopes ::
          refs0[d] - refs1[d] == (if d == c then 1 else 0) + |Gone(h, left, d)| - (if d == x then 1 else 0))
    && (forall d | d in h.scopes :: refs1[d] <= refs0[d])
    && (forall d | d in h.scopes :: d !in left.scopes <==> refs1[d] == 0 && refs0[d] > 0)
    && (forall d | d in refs0 && d !in h.scopes :: refs1[d] == refs0[d])
  }

  lemma GaveNothing(h: Holding, refs: map<Ptr, int>, c: Ptr)
    requires h.scopes <= refs.Keys && forall d | d in h.scopes :: refs[d] >= 0
    ensures GaveUp(h, h, refs, refs, c, c)
  {
    forall d ensures Gone(h, h, d) == {} {
    }
  }

  lemma GaveOne(h: Holding, left: Holding, refs0: map<Ptr, int>, refs1: map<Ptr, int>, c: Ptr, x: Ptr)
    requires GaveUp(h, left, refs0, refs1, c, x) && x in left.scopes && x != 0 && 0 !in h.scopes && refs1[x] > 1
    ensures GaveUp(h, left, refs0, refs1[x := refs1[x] - 1], c, 0)
  {
  }

  lemma GoneMore(h: Holding, left: Holding, x: Ptr, d: Ptr)
    requires x in left.scopes && x in h.scopes && x in h.ctxs
    ensures var left' := left.(scopes := left.scopes - {x});
            |Gone(h, left', d)| == |Gone(h, left, d)| + (if d == h.ctxs[x].prev then 1 else 0)
  {
    var left' := left.(scopes := left.scopes - {x});
    if d == h.ctxs[x].prev {
      assert Gone(h, left', d) == Gone(h, left, d) + {x};
    } else {
      assert Gone(h, left', d) == Gone(h, left, d);
    }
  }

  lemma GaveLast(h: Holding, left: Holding, refs0: map<Ptr, int>, refs1: map<Ptr, int>, c: Ptr, x: Ptr)
    requires GaveUp(h, left, refs0, refs1, c, x) && x in left.scopes && x in h.ctxs && h.ctxs[x].prev != x && refs1[x] == 1
    ensures GaveUp(h, left.(scopes := left.scopes - {x}), refs0, refs1[x := 0], c, h.ctxs[x].prev)
  {
    hide Gone;
    var left', refs2 := left.(scopes := left.scopes - {x}), refs1[x := 0];
    forall d | d in h.scopes
      ensures refs0[d] - refs2[d] == (if d == c then 1 else 0) + |Gone(h, left', d)| - (if d == h.ctxs[x].prev then 1 else 0)
    {
      GoneMore(h, left, x, d);
    }
  }

  /** So nobody is left without a holder. */
  lemma StillHeld(h: Holding, left: Holding, refs0: map<Ptr, int>, refs1: map<Ptr, int>, c: Ptr)
    requires GaveUp(h, left, refs0, refs1, c, 0) && AllHeld(h.scopes, refs0)
    requires forall d | d in left.scopes :: refs1[d] >= 0
    ensures AllHeld(left.scopes, refs1)
  {
    hide Gone;
  }

  lemma FreedHeld(h: Holding, left: Holding, refs0: map<Ptr, int>, refs1: map<Ptr, int>, c: Ptr)
    requires GaveUp(h, left, refs0, refs1, c, 0) && 0 !in h.scopes && left.scopes <= refs1.Keys && forall d | d in left.scopes :: refs1[d] >= 0
    ensures AllHeld(h.scopes, refs0) ==> AllHeld(left.scopes, refs1)
    ensures c in h.scopes && refs0[c] == 1 ==> c !in left.scopes
  {
    hide Gone;
    if AllHeld(h.scopes, refs0) {
      StillHeld(h, left, refs0, refs1, c);
    }
  }

  lemma CountsNatural(h: Holding, refs: map<Ptr, int>, listed: set<Ptr>, spare: Ptr)
    requires Counted(h, refs, listed, spare)
    ensures h.scopes <= refs.Keys && h.scopes <= h.ctxs.Keys && forall c | c in h.scopes :: refs[c] >= if c == spare then 1 else 0
  {
    hide Holders;
  }

  /** Every scope that was there before has been kept, or freed because its count came down to
      nothing. */
  ghost predicate KeptOrFreed(before: set<Ptr>, now: set<Ptr>, refs: map<Ptr, int>) {
    forall c | c in before && c !in now :: c in refs && refs[c] == 0
  }

  lemma FreedMore(before: set<Ptr>, h: Holding, left: Holding, refs0: map<Ptr, int>, refs1: map<Ptr, int>, c: Ptr)
    requires KeptOrFreed(before, h.scopes, refs0) && GaveUp(h, left, refs0, refs1, c, 0)
    ensures KeptOrFreed(before, left.scopes, refs1)
  {
    hide Gone;
  }
}
