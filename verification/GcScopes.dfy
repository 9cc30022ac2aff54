/** Scopes at the end of a collection: none of those that are held is forgotten, and every
    count is still the number of its holders. */
module GcScopes {
  import opened Basics
  import opened GcGraph
  import opened ContextRefs
  import opened GcFinish

  /** The holders when the destructors have run: nothing dead has a scope any more. */
  ghost predicate Left(b: Base, s: Snap, h: Holding, log: seq<Ptr>) {
    && h.mem == b.mem && h.ctxs == b.ctxs && h.scopes <= b.ctxs.Keys
    && h.closures == b.mem.Keys - (set a | a in log && Dead(b, s, a)) && ScopesLogged(b.mem, log)
  }

  /** Who is left with a scope has been seen by the traversal. */
  lemma ClosureAlive(b: Base, s: Snap, h: Holding, log: seq<Ptr>, a: Ptr)
    requires Left(b, s, h, log) && a in h.closures && b.mem[a].body.Object? && b.mem[a].body.scope != 0
    ensures a in b.mem && !Dead(b, s, a)
  {
  }

  lemma ClosureSettled(b: Base, s: Snap, held: set<Ptr>, a: Ptr)
    requires Inv(b, s) && Complete(b, s, Scopes(b, s, held)) && a in b.mem && !Dead(b, s, a) && b.mem[a].body.Object?
    ensures Settled(b, s, b.mem[a].body.scope)
    ensures a in Moved(b, s) && Moved(b, s)[a] in Survivors(b, s)
    ensures var n := s.mem[Moved(b, s)[a]]; n.body.Object? && n.body.scope == b.mem[a].body.scope
  {
    hide Visits, Img, Settled;
    if Moves(b, a) {
      assert Original(b, s, a) && Copies(b, s, s.mem[a].copy);
    } else {
      assert Stays(b, s, a);
    }
  }

  /** Some holder of a scope whose count is not nothing. */
  lemma SomeHolder(h: Holding, refs: map<Ptr, int>, c: Ptr)
    requires Counted(h, refs, {}, 0) && AllHeld(h.scopes, refs) && c in h.scopes && c != 0
    ensures || (exists a :: a in h.closures && a in h.mem && h.mem[a].body.Object? && h.mem[a].body.scope == c)
            || (exists d :: d in h.scopes && d in h.ctxs && h.ctxs[d].prev == c)
            || (exists k, i :: 0 <= k < |h.coros| && 0 <= i < |h.coros[k].frames| && h.coros[k].frames[i] == c)
  {
    if Closures(h, c) != {} {
      var a :| a in Closures(h, c);
    } else if Inners(h, c) != {} {
      var d :| d in Inners(h, c);
    } else {
      assert |FrameUses(h, c)| > 0;
      var x :| x in FrameUses(h, c);
      assert h.coros[x.0].frames[x.1] == c;
    }
  }

  /** The scopes further in than `c`. */
  ghost function Inside(h: Holding, rank: map<Ptr, nat>, c: Ptr): set<Ptr> {
    set d | d in h.scopes && d in rank && c in rank && rank[d] > rank[c]
  }

  lemma InsideLess(h: Holding, rank: map<Ptr, nat>, c: Ptr, d: Ptr)
    requires Ranked(h.ctxs, h.scopes, rank) && d in h.scopes && d in h.ctxs && h.ctxs[d].prev == c && c != 0
    ensures Inside(h, rank, d) < Inside(h, rank, c)
  {
    assert d in Inside(h, rank, c) && d !in Inside(h, rank, d);
  }

  /** A scope that is held needs no more work: its holder, or that one's holder, and so on,
      has been seen. */
  lemma {:induction false} HeldSettled(b: Base, s: Snap, h: Holding, refs: map<Ptr, int>, log: seq<Ptr>, c: Ptr)
    requires Inv(b, s) && Complete(b, s, Scopes(b, s, h.scopes)) && Left(b, s, h, log)
    requires Counted(h, refs, {}, 0) && AllHeld(h.scopes, refs) && Ranked(h.ctxs, h.scopes, b.rank)
    requires forall k, i | 0 <= k < |h.coros| && 0 <= i < |h.coros[k].frames| :: Settled(b, s, h.coros[k].frames[i])
    requires c in h.scopes && c != 0
    ensures Settled(b, s, c)
    decreases Inside(h, b.rank, c)
  {
    SomeHolder(h, refs, c);
    hide Inv, Counted, AllHeld, Inside, Settled, Dead, Survivors, Moved;
    if a :| a in h.closures && a in h.mem && h.mem[a].body.Object? && h.mem[a].body.scope == c {
      ClosureAlive(b, s, h, log, a);
      ClosureSettled(b, s, h.scopes, a);
    } else if d :| d in h.scopes && d in h.ctxs && h.ctxs[d].prev == c {
      InsideLess(h, b.rank, c, d);
      NotNull(b, s, d);
      HeldSettled(b, s, h, refs, log, d);
      InnerSettled(b, s, h.scopes, d);
    }
  }

  lemma NotNull(b: Base, s: Snap, d: Ptr)
    requires Inv(b, s) && d in b.ctxs
    ensures d != 0 && d in s.ctxs
  {
    hide Uids, Copies, Original, Stays, Visits;
  }

  lemma InnerSettled(b: Base, s: Snap, held: set<Ptr>, d: Ptr)
    requires Complete(b, s, Scopes(b, s, held)) && d in held && d in b.ctxs && d in s.ctxs && d != 0 && Settled(b, s, d)
    ensures Settled(b, s, b.ctxs[d].prev)
  {
    hide Settled, ImgBody, Img;
    assert d in Scopes(b, s, held);
  }

  lemma FramesSettled(b: Base, s: Snap, o: Roots, n: Roots)
    requires ImgRoots(b, s, o, n)
    ensures forall k, i | 0 <= k < |o.coros| && 0 <= i < |o.coros[k].frames| :: Settled(b, s, o.coros[k].frames[i])
  {
    hide Settled, Img, ImgSeq;
    forall k, i | 0 <= k < |o.coros| && 0 <= i < |o.coros[k].frames| ensures Settled(b, s, o.coros[k].frames[i]) {
      assert ImgCoro(b, s, o.coros[k], n.coros[k]);
    }
  }

  /** So all scopes that are held are left. */
  lemma NoneForgotten(b: Base, s: Snap, h: Holding, refs: map<Ptr, int>, log: seq<Ptr>)
    requires Inv(b, s) && Complete(b, s, Scopes(b, s, h.scopes)) && Left(b, s, h, log)
    requires Counted(h, refs, {}, 0) && AllHeld(h.scopes, refs) && Ranked(h.ctxs, h.scopes, b.rank)
    requires forall k, i | 0 <= k < |h.coros| && 0 <= i < |h.coros[k].frames| :: Settled(b, s, h.coros[k].frames[i])
    ensures Scopes(b, s, h.scopes) == h.scopes
  {
    hide Inv, Complete, Counted, AllHeld, Ranked, Settled;
    forall c | c in h.scopes ensures c in s.ctxs && c != 0 && Settled(b, s, c) {
      NotNull(b, s, c);
      HeldSettled(b, s, h, refs, log, c);
    }
  }

  // ---------------------------------------------------------------------------
  // Counting

  lemma {:induction false} InjectionCardinality(s: set<Ptr>, t: set<Ptr>, f: map<Ptr, Ptr>)
    requires forall x | x in s :: x in f && f[x] in t
    requires forall x, y | x in s && y in s && f[x] == f[y] :: x == y
    ensures |s| <= |t|
  {
    if s != {} {
      var x :| x in s;
      InjectionCardinality(s - {x}, t - {f[x]}, f);
    }
  }

  lemma MovedApart(b: Base, s: Snap, a: Ptr, d: Ptr)
    requires Inv(b, s) && a in Moved(b, s) && d in Moved(b, s) && Moved(b, s)[a] == Moved(b, s)[d]
    ensures a == d
  {
    hide Uids, Copies, Visits;
    if Moves(b, a) {
      assert Original(b, s, a);
    }
    if Moves(b, d) {
      assert Original(b, s, d);
    }
  }

  lemma SameClosures(b: Base, s: Snap, h: Holding, h1: Holding, log: seq<Ptr>, c: Ptr)
    requires Inv(b, s) && Complete(b, s, Scopes(b, s, h.scopes)) && Left(b, s, h, log) && c != 0
    requires h1.mem == Survivors(b, s) && h1.closures == Survivors(b, s).Keys
    ensures |Closures(h1, c)| == |Closures(h, c)|
  {
    hide Inv, Complete, Dead, Moved, Survivors;
    var there := Moved(b, s);
    forall a | a in Closures(h, c) ensures a in there && there[a] in Closures(h1, c) {
      ClosureAlive(b, s, h, log, a);
      ClosureSettled(b, s, h.scopes, a);
      SurvivorIs(b, s, there[a]);
    }
    forall a, d | a in Closures(h, c) && d in Closures(h, c) && there[a] == there[d] ensures a == d {
      MovedApart(b, s, a, d);
    }
    InjectionCardinality(Closures(h, c), Closures(h1, c), there);
    FewerClosures(b, s, h, h1, log, c);
  }

  lemma SurvivorIs(b: Base, s: Snap, n: Ptr)
    requires n in Survivors(b, s)
    ensures n in s.mem && Survivors(b, s)[n] == s.mem[n]
  {
  }

  lemma FewerClosures(b: Base, s: Snap, h: Holding, h1: Holding, log: seq<Ptr>, c: Ptr)
    requires Inv(b, s) && Complete(b, s, Scopes(b, s, h.scopes)) && Left(b, s, h, log)
    requires h1.mem == Survivors(b, s)
    ensures |Closures(h1, c)| <= |Closures(h, c)|
  {
    hide Inv, Complete, Dead, Moved, Survivors;
    var back := map a | a in h1.mem :: if a in s.org then s.org[a] else a;
    forall a | a in Closures(h1, c) ensures a in back && back[a] in Closures(h, c) {
      SurvivorIs(b, s, a);
      SurvivorFrom(b, s, h.scopes, a);
    }
    forall a, d | a in Closures(h1, c) && d in Closures(h1, c) && back[a] == back[d] ensures a == d {
      SurvivorIs(b, s, a);
      SurvivorIs(b, s, d);
      SurvivorFrom(b, s, h.scopes, a);
      SurvivorFrom(b, s, h.scopes, d);
    }
    InjectionCardinality(Closures(h1, c), Closures(h, c), back);
  }

  lemma SameInners(b: Base, s: Snap, h: Holding, h1: Holding, c: Ptr)
    requires Inv(b, s) && Complete(b, s, h.scopes) && h.scopes <= b.ctxs.Keys
    requires h.ctxs == b.ctxs && h1.ctxs == s.ctxs && h1.scopes == h.scopes
    ensures Inners(h1, c) == Inners(h, c)
  {
    hide Inv, ImgBody, Img, Settled;
    forall d | d in h.scopes ensures d in s.ctxs && s.ctxs[d].prev == b.ctxs[d].prev {
      assert FinishedContext(b, s, b.ctxs[d], s.ctxs[d]);
    }
  }

  /** Every count is the number of holders that are left. */
  lemma CountedAfter(b: Base, s: Snap, h: Holding, refs: map<Ptr, int>, log: seq<Ptr>, coros: seq<Coro>)
    requires Inv(b, s) && Complete(b, s, Scopes(b, s, h.scopes)) && Left(b, s, h, log) && Scopes(b, s, h.scopes) == h.scopes
    requires Counted(h, refs, {}, 0)
    requires |coros| == |h.coros| && forall k | 0 <= k < |coros| :: coros[k].frames == h.coros[k].frames
    ensures Counted(Holding(Survivors(b, s), Survivors(b, s).Keys, s.ctxs, Scopes(b, s, h.scopes), coros), refs, {}, 0)
  {
    var h1 := Holding(Survivors(b, s), Survivors(b, s).Keys, s.ctxs, Scopes(b, s, h.scopes), coros);
    assert forall c | c in h1.scopes :: c != 0 && c in s.ctxs;
    hide Inv, Complete, Settled, Moves, Dead, Survivors, Scopes;
    forall c | c in h1.scopes
      ensures c in refs && c in h1.ctxs && refs[c] == Holders(h1, c)
    {
      SameClosures(b, s, h, h1, log, c);
      SameInners(b, s, h, h1, c);
      assert FrameUses(h1, c) == FrameUses(h, c);
      assert refs[c] == Holders(h, c);
    }
  }
}
