/** The end of a collection: when every root and every remembered node has been dealt
    with, what is left is the old graph under new addresses. */
module GcFinish {
  import opened Basics
  import opened GcGraph
  import opened GcTheorem
  import opened ContextRefs

  ghost function ToSet(s: seq<Ptr>): set<Ptr> {
    set x | x in s
  }

  // ---------------------------------------------------------------------------
  // Remembered sets

  /** Null, or in the old generation. */
  ghost predicate Old(mem: map<Ptr, Node>, p: Ptr) {
    p == 0 || (p in mem && mem[p].gen == 1)
  }

  ghost predicate OldBody(mem: map<Ptr, Node>, n: Body) {
    match n
    case Object(_, slots, proto, items, _) =>
      Old(mem, slots) && Old(mem, proto) && forall i | 0 <= i < |items| :: Old(mem, items[i])
    case Table(entries, _, _) =>
      forall i | 0 <= i < |entries| :: Old(mem, entries[i].val)
  }

  ghost predicate OldScope(ctxs: map<Ptr, Context>, c: Ptr) {
    c == 0 || (c in ctxs && ctxs[c].gen == 1)
  }

  datatype Lists = Lists(objs: seq<Ptr>, slots: seq<Ptr>, scopes: seq<Ptr>)

  /** Which list a node that carries the write-barrier mark is on. */
  ghost predicate OnList(mem: map<Ptr, Node>, l: Lists, a: Ptr) {
    a in mem && a in (if mem[a].body.Object? then l.objs else l.slots)
  }

  /** An old node without the mark has no young child. */
  ghost predicate RemNodes(mem: map<Ptr, Node>, ctxs: map<Ptr, Context>) {
    forall a | a in mem && mem[a].gen == 1 ::
      && (!mem[a].wb ==> OldBody(mem, mem[a].body))
      && (mem[a].body.Object? ==> OldScope(ctxs, mem[a].body.scope))
  }

  ghost predicate RemContexts(mem: map<Ptr, Node>, ctxs: map<Ptr, Context>, scopes: set<Ptr>) {
    forall c | c in scopes && c in ctxs && ctxs[c].gen == 1 ::
      && (!ctxs[c].wb ==> Old(mem, ctxs[c].obj) && Old(mem, ctxs[c].slots))
      && OldScope(ctxs, ctxs[c].prev)
  }

  /** The mark says exactly who is on a list, and everybody is there once. */
  ghost predicate Marked(mem: map<Ptr, Node>, ctxs: map<Ptr, Context>, scopes: set<Ptr>, l: Lists) {
    && (forall a | a in mem :: mem[a].wb <==> OnList(mem, l, a))
    && (forall a | a in l.objs :: a in mem && mem[a].body.Object? && mem[a].gen == 1)
    && (forall a | a in l.slots :: a in mem && mem[a].body.Table? && mem[a].gen == 1)
    && (forall c | c in scopes && c in ctxs :: ctxs[c].wb <==> c in l.scopes)
    && (forall c | c in l.scopes :: c in scopes && c in ctxs && ctxs[c].gen == 1)
    && NoDup(l.objs) && NoDup(l.slots) && NoDup(l.scopes)
  }

  ghost predicate Remembered(mem: map<Ptr, Node>, ctxs: map<Ptr, Context>, scopes: set<Ptr>, l: Lists) {
    RemNodes(mem, ctxs) && RemContexts(mem, ctxs, scopes) && Marked(mem, ctxs, scopes, l)
  }

  // ---------------------------------------------------------------------------
  // The memory that is left

  /** What survives: everything that did not move, and the copies. */
  ghost function Survivors(b: Base, s: Snap): map<Ptr, Node> {
    map a | a in s.mem && !Moves(b, a) :: s.mem[a]
  }

  /** Where the old nodes are now. */
  ghost function Moved(b: Base, s: Snap): map<Ptr, Ptr> {
    map a | a in b.mem && a in s.mem && (Moves(b, a) ==> s.mem[a].copy != 0) :: if Moves(b, a) then s.mem[a].copy else a
  }

  /** Everything that is left is finished; `scopes` are the contexts that are left. */
  ghost predicate Complete(b: Base, s: Snap, scopes: set<Ptr>) {
    && (forall n | n in s.org :: n in s.mem && s.org[n] in b.mem && ImgBody(b, s, b.mem[s.org[n]].body, s.mem[n].body))
    && (forall a | a in b.mem && !Moves(b, a) :: a in s.mem && ImgBody(b, s, b.mem[a].body, s.mem[a].body) && !s.mem[a].wb)
    && (forall c | c in scopes :: c in b.ctxs && c in s.ctxs && FinishedContext(b, s, b.ctxs[c], s.ctxs[c]))
  }

  ghost predicate FinishedContext(b: Base, s: Snap, o: Context, n: Context) {
    && Img(b, s, o.obj, n.obj) && Img(b, s, o.slots, n.slots)
    && n.prev == o.prev && Settled(b, s, o.prev) && n.gen == 1 && !n.wb
  }

  /** The contexts that are left: those still held that need no more work. */
  ghost function Scopes(b: Base, s: Snap, held: set<Ptr>): set<Ptr> {
    set c | c in held && c in s.ctxs && c != 0 && Settled(b, s, c)
  }

  /** Every scope a surviving node or context names is left. */
  ghost predicate ScopesHeld(b: Base, s: Snap, held: set<Ptr>) {
    && (forall a | a in b.mem && b.mem[a].body.Object? && (Moves(b, a) ==> a in s.mem && s.mem[a].copy != 0) ::
          Inside(held, b.mem[a].body.scope))
    && (forall c | c in held && c in b.ctxs :: Inside(held, b.ctxs[c].prev))
  }

  lemma ImgRen(b: Base, s: Snap, p: Ptr, q: Ptr)
    requires Inv(b, s) && Img(b, s, p, q)
    ensures q == Ren(Moved(b, s), p) && (p == 0 || p in Moved(b, s))
    ensures q != 0 ==> q in Survivors(b, s) && (q in s.mem && p in b.mem && (s.mem[q].body.Object? <==> b.mem[p].body.Object?))
  {
    if p != 0 && Moves(b, p) {
      assert Original(b, s, p);
      CopyFacts(b, s, q);
      assert Copies(b, s, q);
    }
    if p != 0 && !Moves(b, p) {
      assert Stays(b, s, p);
    }
  }

  /** A surviving node and what it is the image of. */
  lemma MovedBody(b: Base, s: Snap, held: set<Ptr>, a: Ptr)
    requires Inv(b, s) && Complete(b, s, Scopes(b, s, held)) && ScopesHeld(b, s, held) && a in Moved(b, s)
    ensures Moved(b, s)[a] in Survivors(b, s)
    ensures ImgBody(b, s, b.mem[a].body, Survivors(b, s)[Moved(b, s)[a]].body)
    ensures b.mem[a].body.Object? ==> Inside(held, b.mem[a].body.scope)
    ensures Moved(b, s)[a] in s.org ==> s.org[Moved(b, s)[a]] == a
    ensures Moved(b, s)[a] !in s.org ==> Moved(b, s)[a] == a
  {
    hide ImgBody;
    if Moves(b, a) {
      assert Original(b, s, a);
      CopyFacts(b, s, s.mem[a].copy);
    }
  }

  lemma BodyTarget(b: Base, s: Snap, held: set<Ptr>, o: Body, n: Body, e: Edge, a: Ptr, q: Ptr)
    requires Inv(b, s) && ImgBody(b, s, o, n)
    requires a in b.mem && b.mem[a].body == o && q in Survivors(b, s) && Survivors(b, s)[q].body == n
    requires o.Object? ==> Inside(held, o.scope)
    ensures var phi := Moved(b, s);
            Target(Survivors(b, s), s.ctxs, q, e) == Ren(phi, Target(b.mem, b.ctxs, a, e))
            && Covered(phi, Scopes(b, s, held), Target(b.mem, b.ctxs, a, e))
  {
    hide Inv, Img, Settled;
    assert Img(b, s, 0, 0) by { ImgNull(b, s, 0); }
    ImgRen(b, s, 0, 0);
    match o
    case Object(_, slots, proto, items, scope) =>
      ImgRen(b, s, slots, n.slots);
      ImgRen(b, s, proto, n.proto);
      ScopeStays(b, s, held, scope);
      if e.Item? && e.i < |items| {
        ImgRen(b, s, items[e.i], n.items[e.i]);
      }
    case Table(entries, _, _) =>
      if e.Val? && e.i < |entries| {
        ImgRen(b, s, entries[e.i].val, n.entries[e.i].val);
      }
  }

  lemma ScopeStays(b: Base, s: Snap, held: set<Ptr>, c: Ptr)
    requires Inv(b, s) && Settled(b, s, c) && Inside(held, c)
    ensures Ren(Moved(b, s), c) == c && Covered(Moved(b, s), Scopes(b, s, held), c)
  {
    hide Copies, Original, Stays;
  }

  lemma ContextTarget(b: Base, s: Snap, held: set<Ptr>, c: Ptr, e: Edge)
    requires Inv(b, s) && Complete(b, s, Scopes(b, s, held)) && ScopesHeld(b, s, held) && c in Scopes(b, s, held)
    requires c in s.ctxs && c in b.ctxs && c !in b.mem && c !in Survivors(b, s) && c !in Moved(b, s)
    ensures var phi := Moved(b, s);
            Target(Survivors(b, s), s.ctxs, c, e) == Ren(phi, Target(b.mem, b.ctxs, c, e))
            && Covered(phi, Scopes(b, s, held), Target(b.mem, b.ctxs, c, e))
  {
    hide Inv, Img, Settled, ImgBody;
    assert FinishedContext(b, s, b.ctxs[c], s.ctxs[c]);
    ImgNull(b, s, 0);
    ImgRen(b, s, 0, 0);
    ImgRen(b, s, b.ctxs[c].obj, s.ctxs[c].obj);
    ImgRen(b, s, b.ctxs[c].slots, s.ctxs[c].slots);
    ScopeStays(b, s, held, b.ctxs[c].prev);
  }

  lemma BodyContents(b: Base, s: Snap, o: Body, n: Body)
    requires ImgBody(b, s, o, n)
    ensures SameContents(o, n)
  {
  }

  lemma MovedInjective(b: Base, s: Snap, a: Ptr, c: Ptr)
    requires Inv(b, s) && a in Moved(b, s) && c in Moved(b, s) && Moved(b, s)[a] == Moved(b, s)[c]
    ensures a == c
  {
    hide Copies, Stays, Visits;
    assert Moves(b, a) ==> Original(b, s, a);
    assert Moves(b, c) ==> Original(b, s, c);
  }

  lemma FinalDomains(b: Base, s: Snap, held: set<Ptr>)
    requires Start(b) && Inv(b, s)
    ensures Addresses(b.mem, b.ctxs) && Addresses(Survivors(b, s), s.ctxs)
    ensures b.ctxs.Keys == s.ctxs.Keys
    ensures forall c | c in Scopes(b, s, held) :: c in s.ctxs && c !in b.mem && c !in Survivors(b, s) && c !in Moved(b, s)
    ensures Survivors(b, s).Keys == (b.mem.Keys - (set a | a in b.mem && Moves(b, a))) + s.org.Keys
  {
    hide Copies, Original, Stays, Visits;
  }

  /** The memory that is left is the old one under `Moved`. */
  lemma FinalIsomorphic(b: Base, s: Snap, held: set<Ptr>)
    requires Start(b) && Inv(b, s) && Complete(b, s, Scopes(b, s, held)) && ScopesHeld(b, s, held)
    ensures Isomorphic(b.mem, b.ctxs, Survivors(b, s), s.ctxs, Moved(b, s), Scopes(b, s, held))
  {
    hide Inv, Start, Complete, ScopesHeld, ImgBody, SameContents, Target, Survivors, Scopes, Moves;
    var phi, mem1, scopes := Moved(b, s), Survivors(b, s), Scopes(b, s, held);
    FinalDomains(b, s, held);
    forall a | a in phi ensures a in b.mem && phi[a] in mem1 && SameContents(b.mem[a].body, mem1[phi[a]].body) {
      MovedBody(b, s, held, a);
      BodyContents(b, s, b.mem[a].body, mem1[phi[a]].body);
    }
    forall a, c | a in phi && c in phi && phi[a] == phi[c] ensures a == c {
      MovedInjective(b, s, a, c);
    }
    forall p, e | p in phi || p in scopes
      ensures Target(mem1, s.ctxs, Ren(phi, p), e) == Ren(phi, Target(b.mem, b.ctxs, p, e))
              && Covered(phi, scopes, Target(b.mem, b.ctxs, p, e))
    {
      if p in phi {
        MovedBody(b, s, held, p);
        BodyTarget(b, s, held, b.mem[p].body, mem1[phi[p]].body, e, p, phi[p]);
      } else {
        ContextTarget(b, s, held, p, e);
      }
    }
  }

  // ---------------------------------------------------------------------------
  // Everything that is left is finished

  ghost function First(b: Base): Snap {
    Snap(b.mem, b.ctxs, map[], b.uid)
  }

  lemma OldImg(b: Base, s: Snap, p: Ptr)
    requires Inv(b, s) && b.gen == 0 && Old(b.mem, p)
    ensures Img(b, s, p, p)
  {
  }

  lemma OldSettled(b: Base, s: Snap, held: set<Ptr>, l: Lists, c: Ptr)
    requires Inv(b, s) && b.gen == 0 && Inside(held, c) && OldScope(b.ctxs, c)
    requires c != 0 ==> (b.ctxs[c].wb ==> c in l.scopes)
    requires forall d | d in l.scopes :: d !in held || Settled(b, s, d)
    ensures Settled(b, s, c)
  {
    if c != 0 && !(c in l.scopes) {
      assert Visits(b, s, c);
    }
  }

  /** What the traversal and the remembered sets leave to show for a collection. */
  ghost predicate Traversed(b: Base, s: Snap, held: set<Ptr>, scopes0: set<Ptr>, l: Lists, done: set<Ptr>) {
    && Start(b) && Inv(b, s)
    && held <= scopes0 && (forall c | c in scopes0 && c in b.ctxs :: b.ctxs[c].gen <= 1)
    && ScopesHeld(b, s, held)
    && Step(b, First(b), s, done) && done !! b.ctxs.Keys && done <= b.mem.Keys
    && Remaining(b, s, done)
    && Remembered(b.mem, b.ctxs, scopes0, l)
    && (b.gen == 0 ==>
          done == ToSet(l.objs) + ToSet(l.slots)
          && b.mem.Keys <= b.reach && held <= b.reach
          && forall c | c in l.scopes :: c !in held || Settled(b, s, c))
  }

  lemma CopyComplete(b: Base, s: Snap, held: set<Ptr>, scopes0: set<Ptr>, l: Lists, done: set<Ptr>, n: Ptr)
    requires Traversed(b, s, held, scopes0, l, done) && n in s.org
    ensures n in s.mem && s.org[n] in b.mem && ImgBody(b, s, b.mem[s.org[n]].body, s.mem[n].body)
  {
    hide Start, Remembered, Remaining, ImgBody, Copies, Original, Stays, Visits, ScopesHeld;
  }

  lemma KeptComplete(b: Base, s: Snap, held: set<Ptr>, scopes0: set<Ptr>, l: Lists, done: set<Ptr>, a: Ptr)
    requires Traversed(b, s, held, scopes0, l, done) && a in b.mem && !Moves(b, a)
    ensures a in s.mem && ImgBody(b, s, b.mem[a].body, s.mem[a].body) && !s.mem[a].wb
  {
    hide Step, Inv, ImgBody;
    if a !in done {
      assert b.mem[a].gen == 1 && !b.mem[a].wb && b.gen == 0 && OldBody(b.mem, b.mem[a].body);
      var o := b.mem[a].body;
      if o.Object? {
        assert Inside(held, o.scope) && OldScope(b.ctxs, o.scope);
        if o.scope != 0 {
          assert o.scope in scopes0 && o.scope in b.ctxs;
        }
        OldSettled(b, s, held, l, o.scope);
      }
      OldBodyImg(b, s, o);
    }
  }

  lemma OldBodyImg(b: Base, s: Snap, o: Body)
    requires Inv(b, s) && b.gen == 0 && OldBody(b.mem, o) && (o.Object? ==> Settled(b, s, o.scope))
    ensures ImgBody(b, s, o, o)
  {
    hide Inv, Img, Settled;
    match o
    case Object(_, slots, proto, items, scope) =>
      OldImg(b, s, slots);
      OldImg(b, s, proto);
      forall i | 0 <= i < |items| ensures Img(b, s, items[i], items[i]) {
        OldImg(b, s, items[i]);
      }
    case Table(entries, _, _) =>
      forall i | 0 <= i < |entries| ensures Img(b, s, entries[i].val, entries[i].val) {
        OldImg(b, s, entries[i].val);
      }
  }

  lemma ScopeComplete(b: Base, s: Snap, held: set<Ptr>, scopes0: set<Ptr>, l: Lists, done: set<Ptr>, c: Ptr)
    requires Traversed(b, s, held, scopes0, l, done) && c in Scopes(b, s, held)
    ensures c in b.ctxs && c in s.ctxs && FinishedContext(b, s, b.ctxs[c], s.ctxs[c])
  {
    hide ImgBody, Closed, Ranked, RemNodes, Remaining, Copies, Original, Stays;
    assert Visits(b, s, c);
    if s.ctxs[c].cid != b.cid {
      hide Step;
      assert b.ctxs[c].gen == 1 && !b.ctxs[c].wb && b.gen == 0;
      OldImg(b, s, b.ctxs[c].obj);
      OldImg(b, s, b.ctxs[c].slots);
      var p := b.ctxs[c].prev;
      assert Inside(held, p);
      OldSettled(b, s, held, l, p);
    }
  }

  lemma TraversedComplete(b: Base, s: Snap, held: set<Ptr>, scopes0: set<Ptr>, l: Lists, done: set<Ptr>)
    requires Traversed(b, s, held, scopes0, l, done)
    ensures Complete(b, s, Scopes(b, s, held))
  {
    hide Traversed, Scopes, ImgBody, FinishedContext, Moves;
    forall n | n in s.org
      ensures n in s.mem && s.org[n] in b.mem && ImgBody(b, s, b.mem[s.org[n]].body, s.mem[n].body)
    {
      CopyComplete(b, s, held, scopes0, l, done, n);
    }
    forall a | a in b.mem && !Moves(b, a)
      ensures a in s.mem && ImgBody(b, s, b.mem[a].body, s.mem[a].body) && !s.mem[a].wb
    {
      KeptComplete(b, s, held, scopes0, l, done, a);
    }
    forall c | c in Scopes(b, s, held)
      ensures c in b.ctxs && c in s.ctxs && FinishedContext(b, s, b.ctxs[c], s.ctxs[c])
    {
      ScopeComplete(b, s, held, scopes0, l, done, c);
    }
  }

  // ---------------------------------------------------------------------------
  // What is left is well-formed again

  ghost function LiveAfter(b: Base, s: Snap, held: set<Ptr>): set<Ptr> {
    Survivors(b, s).Keys + Scopes(b, s, held)
  }

  lemma ObjectAfter(b: Base, s: Snap, live: set<Ptr>, p: Ptr, q: Ptr)
    requires Inv(b, s) && Img(b, s, p, q) && IsObject(b.mem, b.reach, p) && Survivors(b, s).Keys <= live
    ensures IsObject(Survivors(b, s), live, q)
  {
    ImgRen(b, s, p, q);
  }

  lemma TableAfter(b: Base, s: Snap, live: set<Ptr>, p: Ptr, q: Ptr)
    requires Inv(b, s) && Img(b, s, p, q) && IsTable(b.mem, b.reach, p) && Survivors(b, s).Keys <= live
    ensures IsTable(Survivors(b, s), live, q)
  {
    ImgRen(b, s, p, q);
  }

  lemma ScopeAfter(b: Base, s: Snap, held: set<Ptr>, c: Ptr)
    requires Inv(b, s) && Settled(b, s, c) && Inside(held, c)
    ensures IsContext(s.ctxs, LiveAfter(b, s, held), c)
  {
    hide Copies, Original, Stays, Visits;
  }

  lemma BodyAfter(b: Base, s: Snap, held: set<Ptr>, o: Body, n: Body)
    requires Inv(b, s) && ImgBody(b, s, o, n) && WfBody(b.mem, b.ctxs, b.reach, o)
    requires o.Object? ==> Inside(held, o.scope)
    ensures WfBody(Survivors(b, s), s.ctxs, LiveAfter(b, s, held), n)
  {
    hide Inv, Img, Settled, IsObject, IsTable, IsContext;
    var live := LiveAfter(b, s, held);
    match o
    case Object(_, slots, proto, items, scope) =>
      TableAfter(b, s, live, slots, n.slots);
      ObjectAfter(b, s, live, proto, n.proto);
      forall i | 0 <= i < |items| ensures IsObject(Survivors(b, s), live, n.items[i]) {
        ObjectAfter(b, s, live, items[i], n.items[i]);
      }
      ScopeAfter(b, s, held, scope);
    case Table(entries, _, _) =>
      forall i | 0 <= i < |entries|
        ensures IsObject(Survivors(b, s), live, n.entries[i].val) && (n.entries[i].key == 0 ==> n.entries[i].val == 0)
      {
        ObjectAfter(b, s, live, entries[i].val, n.entries[i].val);
        NullImg(b, s, entries[i].val, n.entries[i].val);
      }
  }

  lemma NullImg(b: Base, s: Snap, p: Ptr, q: Ptr)
    requires Img(b, s, p, q)
    ensures p == 0 ==> q == 0
  {
  }

  lemma SurvivorAfter(b: Base, s: Snap, held: set<Ptr>, scopes0: set<Ptr>, l: Lists, done: set<Ptr>, a: Ptr)
    requires Traversed(b, s, held, scopes0, l, done) && a in Survivors(b, s)
    ensures WfBody(Survivors(b, s), s.ctxs, LiveAfter(b, s, held), Survivors(b, s)[a].body)
    ensures Survivors(b, s)[a].gen == 1 && !Survivors(b, s)[a].wb && Survivors(b, s)[a].copy == 0
  {
    hide Step, ImgBody, WfBody, Remaining, Remembered, LiveAfter;
    if a in s.org {
      assert Copies(b, s, a);
      CopyComplete(b, s, held, scopes0, l, done, a);
      BodyAfter(b, s, held, b.mem[s.org[a]].body, s.mem[a].body);
    } else {
      assert Stays(b, s, a);
      KeptComplete(b, s, held, scopes0, l, done, a);
      BodyAfter(b, s, held, b.mem[a].body, s.mem[a].body);
    }
  }

  lemma ContextAfter(b: Base, s: Snap, held: set<Ptr>, scopes0: set<Ptr>, l: Lists, done: set<Ptr>, c: Ptr)
    requires Traversed(b, s, held, scopes0, l, done) && c in Scopes(b, s, held)
    ensures c in s.ctxs && WfContext(Survivors(b, s), s.ctxs, LiveAfter(b, s, held), s.ctxs[c])
    ensures s.ctxs[c].gen == 1 && !s.ctxs[c].wb && s.ctxs[c].prev == b.ctxs[c].prev && c in b.reach
  {
    ScopeComplete(b, s, held, scopes0, l, done, c);
    assert c in b.reach && c in held && Inside(held, b.ctxs[c].prev) && WfContext(b.mem, b.ctxs, b.reach, b.ctxs[c]) by {
      hide Step, ImgBody, Remaining, Remembered, Copies, Original, Stays;
      assert Visits(b, s, c);
    }
    hide Start, Step, Inv, Img, Settled, IsObject, IsTable, IsContext, Remaining, Remembered, ScopesHeld;
    var live := LiveAfter(b, s, held);
    ObjectAfter(b, s, live, b.ctxs[c].obj, s.ctxs[c].obj);
    TableAfter(b, s, live, b.ctxs[c].slots, s.ctxs[c].slots);
    ScopeAfter(b, s, held, b.ctxs[c].prev);
  }

  /** After a collection every pointer in what is left has the right kind and leads to
      something that is left, everything is old, and nothing needs remembering. */
  lemma WellFormedAfter(b: Base, s: Snap, held: set<Ptr>, scopes0: set<Ptr>, l: Lists, done: set<Ptr>)
    requires Traversed(b, s, held, scopes0, l, done)
    ensures Closed(Survivors(b, s), s.ctxs, LiveAfter(b, s, held))
    ensures Addresses(Survivors(b, s), s.ctxs)
    ensures Remembered(Survivors(b, s), s.ctxs, Scopes(b, s, held), Lists([], [], []))
    ensures forall a | a in Survivors(b, s) :: Survivors(b, s)[a].gen == 1 && !Survivors(b, s)[a].wb && Survivors(b, s)[a].copy == 0
    ensures forall c | c in Scopes(b, s, held) :: c in b.reach && c in s.ctxs && s.ctxs[c].prev == b.ctxs[c].prev && s.ctxs[c].gen == 1
  {
    var mem1, live := Survivors(b, s), LiveAfter(b, s, held);
    assert Addresses(mem1, s.ctxs) && Start(b) && Inv(b, s) by {
      FinalDomains(b, s, held);
    }
    hide Traversed, Scopes, WfBody, WfContext, Moves, Remembered, Survivors, Start, Inv;
    forall a | a in mem1
      ensures WfBody(mem1, s.ctxs, live, mem1[a].body) && mem1[a].gen == 1 && !mem1[a].wb && mem1[a].copy == 0
    {
      SurvivorAfter(b, s, held, scopes0, l, done, a);
    }
    forall c | c in Scopes(b, s, held)
      ensures c in s.ctxs && WfContext(mem1, s.ctxs, live, s.ctxs[c]) && c in b.reach && s.ctxs[c].prev == b.ctxs[c].prev
      ensures s.ctxs[c].gen == 1 && !s.ctxs[c].wb
    {
      ContextAfter(b, s, held, scopes0, l, done, c);
    }
    assert forall c | c in live && c in s.ctxs :: c in Scopes(b, s, held);
    AllOld(mem1, s.ctxs, Scopes(b, s, held));
  }

  lemma AllOld(mem: map<Ptr, Node>, ctxs: map<Ptr, Context>, scopes: set<Ptr>)
    requires Addresses(mem, ctxs) && Closed(mem, ctxs, mem.Keys + scopes)
    requires forall a | a in mem :: mem[a].gen == 1 && !mem[a].wb
    requires forall c | c in scopes :: c in ctxs && ctxs[c].gen == 1 && !ctxs[c].wb
    ensures Remembered(mem, ctxs, scopes, Lists([], [], []))
  {
    forall a | a in mem
      ensures OldBody(mem, mem[a].body) && (mem[a].body.Object? ==> OldScope(ctxs, mem[a].body.scope))
    {
      assert WfBody(mem, ctxs, mem.Keys + scopes, mem[a].body);
    }
    forall c | c in scopes
      ensures Old(mem, ctxs[c].obj) && Old(mem, ctxs[c].slots) && OldScope(ctxs, ctxs[c].prev)
    {
      assert WfContext(mem, ctxs, mem.Keys + scopes, ctxs[c]);
    }
  }

  // ---------------------------------------------------------------------------
  // Roots and reference counts

  /** The roots after nodes moved as `phi` says. */
  ghost predicate RootsMoved(phi: map<Ptr, Ptr>, o: Roots, n: Roots) {
    && |n.coros| == |o.coros|
    && (forall k | 0 <= k < |o.coros| ::
          && n.coros[k].exitv == Ren(phi, o.coros[k].exitv)
          && |n.coros[k].stack| == |o.coros[k].stack|
          && (forall i | 0 <= i < |o.coros[k].stack| :: n.coros[k].stack[i] == Ren(phi, o.coros[k].stack[i]))
          && n.coros[k].frames == o.coros[k].frames)
    && |n.protos| == |o.protos| && (forall k | 0 <= k < |o.protos| :: n.protos[k] == Ren(phi, o.protos[k]))
    && n.except == Ren(phi, o.except) && n.loaded == Ren(phi, o.loaded) && n.none == Ren(phi, o.none)
  }

  lemma RootsAfter(b: Base, s: Snap, held: set<Ptr>, o: Roots, n: Roots)
    requires Inv(b, s) && ImgRoots(b, s, o, n) && WfRoots(b.mem, b.ctxs, b.reach, o)
    requires forall k, i | 0 <= k < |o.coros| && 0 <= i < |o.coros[k].frames| :: Inside(held, o.coros[k].frames[i])
    ensures RootsMoved(Moved(b, s), o, n)
    ensures WfRoots(Survivors(b, s), s.ctxs, LiveAfter(b, s, held), n)
  {
    hide Inv, Img, IsObject, IsContext, Settled, Moved, Survivors;
    var live := LiveAfter(b, s, held);
    forall k | 0 <= k < |o.coros|
      ensures n.coros[k].exitv == Ren(Moved(b, s), o.coros[k].exitv)
      ensures |n.coros[k].stack| == |o.coros[k].stack|
      ensures forall i | 0 <= i < |o.coros[k].stack| :: n.coros[k].stack[i] == Ren(Moved(b, s), o.coros[k].stack[i])
      ensures n.coros[k].frames == o.coros[k].frames
      ensures WfCoro(Survivors(b, s), s.ctxs, live, n.coros[k])
    {
      CoroAfter(b, s, held, o.coros[k], n.coros[k]);
    }
    forall k | 0 <= k < |o.protos|
      ensures n.protos[k] == Ren(Moved(b, s), o.protos[k]) && IsObject(Survivors(b, s), live, n.protos[k])
    {
      ImgRen(b, s, o.protos[k], n.protos[k]);
      ObjectAfter(b, s, live, o.protos[k], n.protos[k]);
    }
    ImgRen(b, s, o.except, n.except);
    ImgRen(b, s, o.loaded, n.loaded);
    ImgRen(b, s, o.none, n.none);
    ObjectAfter(b, s, live, o.except, n.except);
    ObjectAfter(b, s, live, o.loaded, n.loaded);
    ObjectAfter(b, s, live, o.none, n.none);
  }

  lemma CoroAfter(b: Base, s: Snap, held: set<Ptr>, o: Coro, n: Coro)
    requires Inv(b, s) && ImgCoro(b, s, o, n) && WfCoro(b.mem, b.ctxs, b.reach, o)
    requires forall i | 0 <= i < |o.frames| :: Inside(held, o.frames[i])
    ensures n.exitv == Ren(Moved(b, s), o.exitv) && |n.stack| == |o.stack| && n.frames == o.frames
    ensures forall i | 0 <= i < |o.stack| :: n.stack[i] == Ren(Moved(b, s), o.stack[i])
    ensures WfCoro(Survivors(b, s), s.ctxs, LiveAfter(b, s, held), n)
  {
    hide Inv, Img, IsObject, IsContext, Settled, Moved, Survivors;
    var live := LiveAfter(b, s, held);
    ImgRen(b, s, o.exitv, n.exitv);
    ObjectAfter(b, s, live, o.exitv, n.exitv);
    forall i | 0 <= i < |o.stack|
      ensures n.stack[i] == Ren(Moved(b, s), o.stack[i]) && IsObject(Survivors(b, s), live, n.stack[i])
    {
      ImgRen(b, s, o.stack[i], n.stack[i]);
      ObjectAfter(b, s, live, o.stack[i], n.stack[i]);
    }
    forall i | 0 <= i < |o.frames| ensures IsContext(s.ctxs, live, n.frames[i]) {
      ScopeAfter(b, s, held, o.frames[i]);
    }
  }

  lemma FirstInv(b: Base)
    requires Start(b)
    ensures Inv(b, First(b)) && Remaining(b, First(b), {})
  {
  }

  // ---------------------------------------------------------------------------
  // The destructor log

  /** An object that was not reached by the collection that should have moved it. */
  ghost predicate Dead(b: Base, s: Snap, a: Ptr) {
    Moves(b, a) && a in s.mem && s.mem[a].copy == 0
  }

  /** The log without the dead, under the new addresses. */
  ghost function LogAfter(b: Base, s: Snap, log: seq<Ptr>): seq<Ptr>
    decreases |log|
  {
    if log == [] then []
    else
      var a := log[|log| - 1];
      LogAfter(b, s, log[..|log| - 1]) + (if Dead(b, s, a) then [] else [Ren(Moved(b, s), a)])
  }

  ghost function IdOf(mem: map<Ptr, Node>, a: Ptr): nat {
    if a in mem && mem[a].body.Object? then mem[a].body.id else 0
  }

  /** The identities of the dead, in the order of the log. */
  ghost function DeadIds(b: Base, s: Snap, log: seq<Ptr>): seq<nat>
    decreases |log|
  {
    if log == [] then []
    else
      var a := log[|log| - 1];
      DeadIds(b, s, log[..|log| - 1]) + (if Dead(b, s, a) then [IdOf(b.mem, a)] else [])
  }

  /** One entry of the log further. */
  lemma LogNext(b: Base, s: Snap, log: seq<Ptr>, i: nat)
    requires i < |log| && log[i] !in log[..i]
    ensures var a := log[i];
            && LogAfter(b, s, log[..i + 1]) == LogAfter(b, s, log[..i]) + (if Dead(b, s, a) then [] else [Ren(Moved(b, s), a)])
            && DeadIds(b, s, log[..i + 1]) == DeadIds(b, s, log[..i]) + (if Dead(b, s, a) then [IdOf(b.mem, a)] else [])
            && (set x | x in log[..i + 1] && Dead(b, s, x)) == (set x | x in log[..i] && Dead(b, s, x)) + (if Dead(b, s, a) then {a} else {})
  {
    hide Dead, Moved, Ren, IdOf;
    assert log[..i + 1][..i] == log[..i] && log[..i + 1] == log[..i] + [log[i]];
  }

  lemma LogNone(b: Base, s: Snap, log: seq<Ptr>)
    requires log == []
    ensures LogAfter(b, s, log) == [] && DeadIds(b, s, log) == []
  {
  }

  /** Each logged object is there once, has an identity of its own, and its destructor
      has not run. */
  ghost predicate LogOk(mem: map<Ptr, Node>, log: seq<Ptr>, destructed: seq<nat>) {
    && (forall i | 0 <= i < |log| :: log[i] in mem && mem[log[i]].body.Object? && mem[log[i]].body.id !in destructed)
    && (forall i, j | 0 <= i < j < |log| :: log[i] != log[j] && IdOf(mem, log[i]) != IdOf(mem, log[j]))
    && (forall i, j | 0 <= i < j < |destructed| :: destructed[i] != destructed[j])
  }

  /** Who closes over a scope is in the log: its destructor gives the scope up. */
  ghost predicate ScopesLogged(mem: map<Ptr, Node>, log: seq<Ptr>) {
    forall a | a in mem && mem[a].body.Object? && mem[a].body.scope != 0 :: a in log
  }

  ghost predicate LogMembers(b: Base, s: Snap, log: seq<Ptr>) {
    && (forall a | a in log && !Dead(b, s, a) :: Ren(Moved(b, s), a) in LogAfter(b, s, log))
    && (forall a | a in log && Dead(b, s, a) :: IdOf(b.mem, a) in DeadIds(b, s, log))
    && (forall q | q in LogAfter(b, s, log) :: exists a :: a in log && !Dead(b, s, a) && q == Ren(Moved(b, s), a))
    && (forall d | d in DeadIds(b, s, log) :: exists a :: a in log && Dead(b, s, a) && d == IdOf(b.mem, a))
  }

  /** The dead are exactly those whose destructor ran; everybody else is still logged. */
  lemma {:induction false} LogSplit(b: Base, s: Snap, log: seq<Ptr>)
    ensures LogMembers(b, s, log)
    decreases |log|
  {
    hide Moved, Dead, IdOf;
    if log != [] {
      var front, a := log[..|log| - 1], log[|log| - 1];
      LogSplit(b, s, front);
      assert log == front + [a] && a in log && forall m | m in front :: m in log;
      forall q | q in LogAfter(b, s, log) ensures exists m :: m in log && !Dead(b, s, m) && q == Ren(Moved(b, s), m) {
        if q in LogAfter(b, s, front) {
          var m :| m in front && !Dead(b, s, m) && q == Ren(Moved(b, s), m);
          assert m in log;
        } else {
          assert !Dead(b, s, a) && q == Ren(Moved(b, s), a);
        }
      }
      forall d | d in DeadIds(b, s, log) ensures exists m :: m in log && Dead(b, s, m) && d == IdOf(b.mem, m) {
        if d in DeadIds(b, s, front) {
          var m :| m in front && Dead(b, s, m) && d == IdOf(b.mem, m);
          assert m in log;
        } else {
          assert Dead(b, s, a) && d == IdOf(b.mem, a);
        }
      }
    }
  }

  /** What one collection does to the log and to the list of destructed objects. */
  lemma {:induction false} LogAfterOk(b: Base, s: Snap, held: set<Ptr>, log: seq<Ptr>, destructed: seq<nat>)
    requires Inv(b, s) && Complete(b, s, Scopes(b, s, held)) && ScopesHeld(b, s, held)
    requires LogOk(b.mem, log, destructed)
    ensures LogOk(Survivors(b, s), LogAfter(b, s, log), destructed + DeadIds(b, s, log))
    decreases |log|
  {
    hide Inv, Complete, ScopesHeld, Survivors, Moved, Dead;
    if log != [] {
      var front, a := log[..|log| - 1], log[|log| - 1];
      assert forall i | 0 <= i < |front| :: front[i] == log[i];
      LogAfterOk(b, s, held, front, destructed);
      LogFresh(b, s, held, front, a);
      assert IdOf(b.mem, a) !in destructed + DeadIds(b, s, front);
      if Dead(b, s, a) {
        hide LogOk, IdOf;
        MoreDead(Survivors(b, s), LogAfter(b, s, front), destructed + DeadIds(b, s, front), IdOf(b.mem, a));
        assert destructed + DeadIds(b, s, front) + [IdOf(b.mem, a)] == destructed + DeadIds(b, s, log);
        assert LogAfter(b, s, log) == LogAfter(b, s, front);
      } else {
        LoggedMoves(b, s, held, a);
        hide LogOk;
        MoreLog(Survivors(b, s), LogAfter(b, s, front), destructed + DeadIds(b, s, front), Ren(Moved(b, s), a));
        assert DeadIds(b, s, log) == DeadIds(b, s, front);
      }
    }
  }

  /** A logged object shares neither address nor identity with the rest of the log. */
  lemma LogFresh(b: Base, s: Snap, held: set<Ptr>, front: seq<Ptr>, a: Ptr)
    requires Inv(b, s) && Complete(b, s, Scopes(b, s, held)) && ScopesHeld(b, s, held)
    requires forall m | m in front + [a] :: m in b.mem && b.mem[m].body.Object?
    requires forall m | m in front :: m != a && IdOf(b.mem, m) != IdOf(b.mem, a)
    ensures forall q | q in LogAfter(b, s, front) ::
      q in Survivors(b, s) && IdOf(Survivors(b, s), q) != IdOf(b.mem, a) && (!Dead(b, s, a) ==> q != Ren(Moved(b, s), a))
    ensures IdOf(b.mem, a) !in DeadIds(b, s, front)
  {
    LogSplit(b, s, front);
    hide Inv, Complete, ScopesHeld, Survivors, Moved, Dead;
    forall q | q in LogAfter(b, s, front)
      ensures IdOf(Survivors(b, s), q) != IdOf(b.mem, a) && q in Survivors(b, s) && (!Dead(b, s, a) ==> q != Ren(Moved(b, s), a))
    {
      var m :| m in front && !Dead(b, s, m) && q == Ren(Moved(b, s), m);
      LoggedMoves(b, s, held, m);
      if !Dead(b, s, a) {
        LoggedMoves(b, s, held, a);
      }
    }
  }

  lemma MoreDead(mem: map<Ptr, Node>, log: seq<Ptr>, destructed: seq<nat>, id: nat)
    requires LogOk(mem, log, destructed) && id !in destructed
    requires forall q | q in log :: IdOf(mem, q) != id
    ensures LogOk(mem, log, destructed + [id])
  {
    assert forall i | 0 <= i < |log| :: log[i] in log;
  }

  lemma MoreLog(mem: map<Ptr, Node>, log: seq<Ptr>, destructed: seq<nat>, a: Ptr)
    requires LogOk(mem, log, destructed) && a in mem && mem[a].body.Object? && mem[a].body.id !in destructed
    requires forall q | q in log :: q != a && IdOf(mem, q) != mem[a].body.id
    ensures LogOk(mem, log + [a], destructed)
  {
    assert forall i | 0 <= i < |log| :: log[i] in log;
  }

  lemma LoggedMoves(b: Base, s: Snap, held: set<Ptr>, a: Ptr)
    requires Inv(b, s) && Complete(b, s, Scopes(b, s, held)) && ScopesHeld(b, s, held)
    requires a in b.mem && b.mem[a].body.Object? && !Dead(b, s, a)
    ensures a in Moved(b, s) && Ren(Moved(b, s), a) in Survivors(b, s)
    ensures var n := Survivors(b, s)[Ren(Moved(b, s), a)]; n.body.Object? && n.body.id == b.mem[a].body.id
  {
    assert a in s.mem by { hide Copies, Original, Stays, Visits; }
    MovedBody(b, s, held, a);
  }

  /** What a held context looks like in the middle of a collection. */
  lemma ScopeFacts(b: Base, s: Snap, h: Holding, refs: map<Ptr, int>, listed: set<Ptr>, spare: Ptr)
    requires Inv(b, s) && h.ctxs == b.ctxs && HeldClosed(h, listed) && Counted(h, refs, listed, spare)
    ensures forall d | d in h.scopes :: d in s.ctxs && d in h.ctxs && s.ctxs[d].prev == h.ctxs[d].prev && d in refs
    ensures listed <= h.scopes
  {
    hide Copies, Original, Stays, Holders;
    forall d | d in h.scopes ensures d in s.ctxs && d in h.ctxs && s.ctxs[d].prev == h.ctxs[d].prev {
      assert Visits(b, s, d);
    }
  }

  /** How the marks of a logged object tell whether it is dead and where it is now. */
  lemma LoggedFacts(b: Base, s: Snap, a: Ptr)
    requires Start(b) && Inv(b, s) && a in b.mem
    ensures a in s.mem && a != 0
    ensures Dead(b, s, a) <==> s.mem[a].copy == 0 && s.mem[a].gen <= b.gen
    ensures Dead(b, s, a) ==> s.mem[a].body == b.mem[a].body
    ensures !Dead(b, s, a) ==> Ren(Moved(b, s), a) == if s.mem[a].copy == 0 then a else s.mem[a].copy
  {
    if Moves(b, a) {
      assert Original(b, s, a);
    } else {
      assert Stays(b, s, a);
    }
  }

  /** What the remembered sets have to satisfy when a collection looks at them. */
  ghost predicate ListsReady(b: Base, l: Lists) {
    && NoDup(l.scopes) && (forall c | c in l.scopes :: c in b.ctxs && (b.gen == 0 ==> c in b.reach))
    && (b.gen == 0 ==>
          && NoDup(l.objs) && NoDup(l.slots)
          && (forall a | a in l.objs :: a in b.mem && a in b.reach && !Moves(b, a) && b.mem[a].body.Object?)
          && (forall a | a in l.slots :: a in b.mem && a in b.reach && !Moves(b, a) && b.mem[a].body.Table?))
  }

  /** The nodes a collection finishes through the remembered sets. */
  ghost function Listed(b: Base, l: Lists): set<Ptr> {
    if b.gen == 0 then ToSet(l.objs) + ToSet(l.slots) else {}
  }


  /** Everything that holds between two operations, heaps and ids aside. */
  ghost predicate Sound(
    mem: map<Ptr, Node>, ctxs: map<Ptr, Context>, scopes: set<Ptr>, rank: map<Ptr, nat>, r: Roots, l: Lists,
    refs: map<Ptr, int>, log: seq<Ptr>, destructed: seq<nat>)
  {
    && Addresses(mem, ctxs) && scopes <= ctxs.Keys
    && Closed(mem, ctxs, mem.Keys + scopes) && Ranked(ctxs, mem.Keys + scopes, rank)
    && WfRoots(mem, ctxs, mem.Keys + scopes, r)
    && Remembered(mem, ctxs, scopes, l)
    && HeldClosed(Holding(mem, mem.Keys, ctxs, scopes, r.coros), ToSet(l.scopes))
    && Counted(Holding(mem, mem.Keys, ctxs, scopes, r.coros), refs, ToSet(l.scopes), 0)
    && LogOk(mem, log, destructed) && ScopesLogged(mem, log)
  }

  lemma LogNoDup(mem: map<Ptr, Node>, log: seq<Ptr>, destructed: seq<nat>)
    requires LogOk(mem, log, destructed)
    ensures NoDup(log) && forall a | a in log :: a in mem && mem[a].body.Object?
  {
  }

  lemma CorosVisited(b: Base, s: Snap, o: seq<Coro>, n: seq<Coro>)
    requires |o| == |n| && ImgCoros(b, s, o, n, |o|)
    ensures forall k | 0 <= k < |n| :: n[k].cid == b.cid && n[k].frames == o[k].frames
  {
  }

  ghost predicate FramesHeld(coros: seq<Coro>, held: set<Ptr>) {
    forall k, i | 0 <= k < |coros| && 0 <= i < |coros[k].frames| :: Inside(held, coros[k].frames[i])
  }

  /** Nothing that survives the destructors has lost its scope. */
  lemma HeldAfter(b: Base, s: Snap, h: Holding, log: seq<Ptr>)
    requires HeldClosed(h, {}) && h.mem == b.mem && h.ctxs == b.ctxs
    requires h.closures == b.mem.Keys - (set a | a in log && Dead(b, s, a))
    ensures ScopesHeld(b, s, h.scopes) && FramesHeld(h.coros, h.scopes)
    ensures forall a | a in b.mem && (Moves(b, a) ==> a in s.mem && s.mem[a].copy != 0) && b.mem[a].body.Object? :: a in h.closures
  {
    hide Moves;
    forall a | a in b.mem && b.mem[a].body.Object? && (Moves(b, a) ==> a in s.mem && s.mem[a].copy != 0)
      ensures a in h.closures && Inside(h.scopes, b.mem[a].body.scope)
    {
      assert !Dead(b, s, a);
      assert Held(h, h.mem[a].body.scope);
    }
    forall c | c in h.scopes && c in b.ctxs ensures Inside(h.scopes, b.ctxs[c].prev) {
      assert Held(h, h.ctxs[c].prev);
    }
    forall k, i | 0 <= k < |h.coros| && 0 <= i < |h.coros[k].frames| ensures Inside(h.scopes, h.coros[k].frames[i]) {
      assert Held(h, h.coros[k].frames[i]);
    }
  }

  lemma ListedNodes(b: Base, l: Lists)
    requires Start(b) && ListsReady(b, l)
    ensures Listed(b, l) <= b.mem.Keys && Listed(b, l) !! b.ctxs.Keys
  {
    hide Closed, Ranked;
  }

  lemma MakeTraversed(b: Base, s: Snap, held: set<Ptr>, scopes0: set<Ptr>, l: Lists, done: set<Ptr>)
    requires Start(b) && Inv(b, s) && held <= scopes0 && ScopesHeld(b, s, held)
    requires forall c | c in scopes0 && c in b.ctxs :: b.ctxs[c].gen <= 1
    requires Step(b, First(b), s, done) && done !! b.ctxs.Keys && done <= b.mem.Keys && done == Listed(b, l)
    requires Remaining(b, s, done) && Remembered(b.mem, b.ctxs, scopes0, l)
    requires b.gen == 0 ==> b.mem.Keys <= b.reach && scopes0 <= b.reach
    requires b.gen == 0 ==> forall c | c in l.scopes :: c !in held || Settled(b, s, c)
    ensures Traversed(b, s, held, scopes0, l, done)
  {
    hide Start, Inv, ScopesHeld, Step, Remaining, Remembered, Settled;
  }

  lemma BeginStart(b: Base, scopes: set<Ptr>, r: Roots)
    requires Addresses(b.mem, b.ctxs) && scopes <= b.ctxs.Keys && Closed(b.mem, b.ctxs, b.mem.Keys + scopes)
    requires Ranked(b.ctxs, b.mem.Keys + scopes, b.rank) && WfRoots(b.mem, b.ctxs, b.mem.Keys + scopes, r)
    requires b.gen <= 1 && (forall a | a in b.mem :: b.mem[a].gen <= 1 && b.mem[a].copy == 0)
    requires forall c | c in b.ctxs :: b.ctxs[c].cid != b.cid && (c in scopes ==> b.ctxs[c].gen <= 1)
    requires b.reach == (if b.gen == 1 then ReachSet(b.mem, b.ctxs, r) else b.mem.Keys + scopes) && Uids(b.mem, b.uid)
    ensures Start(b) && WfRoots(b.mem, b.ctxs, b.reach, r)
  {
    hide WfRoots, ReachSet, Closed, Ranked, Uids;
    var live := b.mem.Keys + scopes;
    ReachClosed(b.mem, b.ctxs, live, r);
    assert b.reach <= live;
    RankedSubset(b.ctxs, live, b.reach, b.rank);
  }

  /** A sound state is one a collection can start from. */
  lemma BeginCollection(b: Base, scopes: set<Ptr>, r: Roots, l: Lists, refs: map<Ptr, int>, log: seq<Ptr>, destructed: seq<nat>)
    requires Sound(b.mem, b.ctxs, scopes, b.rank, r, l, refs, log, destructed)
    requires b.gen <= 1 && (forall a | a in b.mem :: b.mem[a].gen <= 1 && b.mem[a].copy == 0)
    requires forall c | c in b.ctxs :: b.ctxs[c].cid != b.cid && (c in scopes ==> b.ctxs[c].gen <= 1)
    requires b.reach == (if b.gen == 1 then ReachSet(b.mem, b.ctxs, r) else b.mem.Keys + scopes) && Uids(b.mem, b.uid)
    ensures Start(b) && Inv(b, First(b)) && WfRoots(b.mem, b.ctxs, b.reach, r) && ListsReady(b, l)
    ensures Remembered(b.mem, b.ctxs, scopes, l) && LogOk(b.mem, log, destructed)
    ensures HeldClosed(Holding(b.mem, b.mem.Keys, b.ctxs, scopes, r.coros), ToSet(l.scopes))
    ensures Counted(Holding(b.mem, b.mem.Keys, b.ctxs, scopes, r.coros), refs, ToSet(l.scopes), 0)
    ensures b.gen == 0 ==> b.mem.Keys <= b.reach && scopes <= b.reach
    ensures ScopesLogged(b.mem, log) && Ranked(b.ctxs, scopes, b.rank) && scopes <= b.ctxs.Keys
  {
    hide WfRoots, HeldClosed, Counted, LogOk, ScopesLogged, RemNodes, RemContexts, Closed, Ranked, Start, Inv, Remaining, ReachSet, Uids;
    BeginStart(b, scopes, r);
    RankedSubset(b.ctxs, b.mem.Keys + scopes, scopes, b.rank);
    FirstInv(b);
  }

  lemma RankedSubset(ctxs: map<Ptr, Context>, live: set<Ptr>, reach: set<Ptr>, rank: map<Ptr, nat>)
    requires Ranked(ctxs, live, rank) && reach <= live
    ensures Ranked(ctxs, reach, rank)
  {
  }

  lemma HeldFromClosed(mem: map<Ptr, Node>, ctxs: map<Ptr, Context>, scopes: set<Ptr>, r: Roots)
    requires Addresses(mem, ctxs) && Closed(mem, ctxs, mem.Keys + scopes) && WfRoots(mem, ctxs, mem.Keys + scopes, r)
    requires scopes <= ctxs.Keys
    ensures HeldClosed(Holding(mem, mem.Keys, ctxs, scopes, r.coros), {})
  {
    var h := Holding(mem, mem.Keys, ctxs, scopes, r.coros);
    forall a | a in mem && mem[a].body.Object? ensures Held(h, mem[a].body.scope) {
      assert WfBody(mem, ctxs, mem.Keys + scopes, mem[a].body);
    }
    forall c | c in scopes ensures Held(h, ctxs[c].prev) {
      assert WfContext(mem, ctxs, mem.Keys + scopes, ctxs[c]);
    }
    forall k, i | 0 <= k < |r.coros| && 0 <= i < |r.coros[k].frames| ensures Held(h, r.coros[k].frames[i]) {
      assert WfCoro(mem, ctxs, mem.Keys + scopes, r.coros[k]);
    }
  }

  lemma RootsCovered(b: Base, s: Snap, held: set<Ptr>, o: Roots, n: Roots, p: Ptr)
    requires Inv(b, s) && ImgRoots(b, s, o, n) && FramesHeld(o.coros, held) && p in RootPtrs(o)
    ensures Covered(Moved(b, s), Scopes(b, s, held), p)
  {
    hide Inv, Img, Settled, Moved, Scopes, Survivors, Inside;
    if p == o.except {
      ImgRen(b, s, p, n.except);
    } else if p == o.loaded {
      ImgRen(b, s, p, n.loaded);
    } else if p == o.none {
      ImgRen(b, s, p, n.none);
    } else if i :| 0 <= i < |o.protos| && o.protos[i] == p {
      ImgRen(b, s, p, n.protos[i]);
    } else if k :| 0 <= k < |o.coros| && o.coros[k].exitv == p {
      ImgRen(b, s, p, n.coros[k].exitv);
    } else if k, i :| 0 <= k < |o.coros| && 0 <= i < |o.coros[k].stack| && o.coros[k].stack[i] == p {
      ImgRen(b, s, p, n.coros[k].stack[i]);
    } else {
      var k, i :| 0 <= k < |o.coros| && 0 <= i < |o.coros[k].frames| && o.coros[k].frames[i] == p;
      assert AllSettled(b, s, o.coros[k].frames);
      ScopeStays(b, s, held, p);
    }
  }

  /** What happened to the log, in terms of where the objects are now. */
  ghost predicate LogKept(mem0: map<Ptr, Node>, log0: seq<Ptr>, des0: seq<nat>, log1: seq<Ptr>, des1: seq<nat>, phi: map<Ptr, Ptr>) {
    && |des0| <= |des1| && des1[..|des0|] == des0
    && (forall a | a in log0 :: if a in phi then phi[a] in log1 else IdOf(mem0, a) in des1[|des0|..])
    && (forall q | q in log1 :: exists a :: a in log0 && a in phi && q == phi[a])
    && (forall d | d in des1[|des0|..] :: exists a :: a in log0 && a !in phi && d == IdOf(mem0, a))
  }

  /** An object a path from the roots leads to stays in the log, and no destructor of this
      collection or an earlier one is its own. */
  lemma ReachableSpared(
    mem0: map<Ptr, Node>, ctxs0: map<Ptr, Context>, r: Roots, log0: seq<Ptr>, des0: seq<nat>,
    mem1: map<Ptr, Node>, ctxs1: map<Ptr, Context>, log1: seq<Ptr>, des1: seq<nat>, phi: map<Ptr, Ptr>, scopes: set<Ptr>, a: Ptr)
    requires Isomorphic(mem0, ctxs0, mem1, ctxs1, phi, scopes) && forall p | p in RootPtrs(r) :: Covered(phi, scopes, p)
    requires LogOk(mem0, log0, des0) && LogKept(mem0, log0, des0, log1, des1, phi)
    requires a in log0 && Reachable(mem0, ctxs0, r, a)
    ensures a in phi && phi[a] in log1 && IdOf(mem0, a) !in des1
  {
    var p, path :| p in RootPtrs(r) && Follow(mem0, ctxs0, p, path) == a;
    PathsKept(mem0, ctxs0, mem1, ctxs1, phi, scopes, p, path);
    assert a in mem0 && a in phi;
    forall d | d in des1[|des0|..] ensures d != IdOf(mem0, a) {
      var b :| b in log0 && b !in phi && d == IdOf(mem0, b);
    }
    assert des1 == des1[..|des0|] + des1[|des0|..];
  }

  lemma LogKeptAfter(b: Base, s: Snap, log: seq<Ptr>, des: seq<nat>)
    requires Start(b) && Inv(b, s) && forall a | a in log :: a in b.mem
    ensures LogKept(b.mem, log, des, LogAfter(b, s, log), des + DeadIds(b, s, log), Moved(b, s))
  {
    LogSplit(b, s, log);
    var des1 := des + DeadIds(b, s, log);
    assert des1[|des|..] == DeadIds(b, s, log) && des1[..|des|] == des;
    forall a | a in log ensures Dead(b, s, a) <==> a !in Moved(b, s) {
      LoggedFacts(b, s, a);
    }
    hide Start, Inv, Dead, Moved, IdOf;
    forall q | q in LogAfter(b, s, log) ensures exists a :: a in log && a in Moved(b, s) && q == Moved(b, s)[a] {
      var a :| a in log && !Dead(b, s, a) && q == Ren(Moved(b, s), a);
      assert a in log && a in Moved(b, s) && q == Moved(b, s)[a];
    }
  }

  lemma LoggedAfter(b: Base, s: Snap, held: set<Ptr>, log: seq<Ptr>)
    requires Start(b) && Inv(b, s) && Complete(b, s, Scopes(b, s, held)) && ScopesLogged(b.mem, log)
    requires forall a | a in log :: a in b.mem && b.mem[a].body.Object?
    ensures ScopesLogged(Survivors(b, s), LogAfter(b, s, log))
  {
    LogSplit(b, s, log);
    forall n | n in Survivors(b, s) && s.mem[n].body.Object? && s.mem[n].body.scope != 0 ensures n in LogAfter(b, s, log) {
      SurvivorFrom(b, s, held, n);
    }
    hide LogAfter, Complete, Inv;
  }

  /** What a surviving object was. */
  lemma SurvivorFrom(b: Base, s: Snap, held: set<Ptr>, n: Ptr)
    requires Inv(b, s) && Complete(b, s, Scopes(b, s, held)) && n in Survivors(b, s) && s.mem[n].body.Object?
    ensures var a := if n in s.org then s.org[n] else n;
            && a in b.mem && b.mem[a].body.Object? && b.mem[a].body.scope == s.mem[n].body.scope
            && !Dead(b, s, a) && a in Moved(b, s) && Moved(b, s)[a] == n
  {
    hide Original, Visits, Img, Settled;
    if n in s.org {
      assert Copies(b, s, n);
    } else {
      assert Stays(b, s, n);
    }
  }

  /** What a traversal that is over means for the state as a whole. */
  lemma EndCollection(
    b: Base, s: Snap, held: set<Ptr>, scopes0: set<Ptr>, l: Lists, done: set<Ptr>,
    r0: Roots, r1: Roots, refs: map<Ptr, int>, log: seq<Ptr>, des: seq<nat>)
    requires Traversed(b, s, held, scopes0, l, done) && ImgRoots(b, s, r0, r1)
    requires WfRoots(b.mem, b.ctxs, b.reach, r0) && FramesHeld(r0.coros, held) && LogOk(b.mem, log, des) && ScopesLogged(b.mem, log)
    requires Counted(Holding(Survivors(b, s), Survivors(b, s).Keys, s.ctxs, Scopes(b, s, held), r1.coros), refs, {}, 0)
    ensures Sound(Survivors(b, s), s.ctxs, Scopes(b, s, held), b.rank, r1, Lists([], [], []), refs, LogAfter(b, s, log), des + DeadIds(b, s, log))
    ensures Isomorphic(b.mem, b.ctxs, Survivors(b, s), s.ctxs, Moved(b, s), Scopes(b, s, held))
    ensures RootsMoved(Moved(b, s), r0, r1)
    ensures forall p | p in RootPtrs(r0) :: Covered(Moved(b, s), Scopes(b, s, held), p)
    ensures LogKept(b.mem, log, des, LogAfter(b, s, log), des + DeadIds(b, s, log), Moved(b, s))
    ensures forall a | a in Survivors(b, s) :: Survivors(b, s)[a].gen == 1 && Survivors(b, s)[a].copy == 0
    ensures forall c | c in Scopes(b, s, held) :: c in b.reach && c in s.ctxs && s.ctxs[c].gen == 1
  {
    TraversedComplete(b, s, held, scopes0, l, done);
    assert Start(b) && Inv(b, s) && ScopesHeld(b, s, held) by { hide Step, Remaining, Remembered, Inv, Start, ScopesHeld; }
    FinalDomains(b, s, held);
    WellFormedAfter(b, s, held, scopes0, l, done);
    RankedAfter(b, s, held);
    hide Traversed, ImgRoots, WfRoots, LogOk, Counted, Complete, ScopesHeld, Start, Inv, Survivors, Scopes, Moved, Closed,
      Remembered, HeldClosed, Ranked, LogKept, Isomorphic, RootsMoved, FramesHeld, RootPtrs, LogAfter, DeadIds, ScopesLogged;
    LogNoDup(b.mem, log, des);
    FinalIsomorphic(b, s, held);
    FramesInside(r0, held);
    RootsAfter(b, s, held, r0, r1);
    HeldFromClosed(Survivors(b, s), s.ctxs, Scopes(b, s, held), r1);
    LogAfterOk(b, s, held, log, des);
    LogKeptAfter(b, s, log, des);
    LoggedAfter(b, s, held, log);
    forall p | p in RootPtrs(r0) ensures Covered(Moved(b, s), Scopes(b, s, held), p) {
      RootsCovered(b, s, held, r0, r1, p);
    }
    assert ToSet(Lists([], [], []).scopes) == {};
  }

  lemma FramesInside(r: Roots, held: set<Ptr>)
    requires FramesHeld(r.coros, held)
    ensures forall k, i | 0 <= k < |r.coros| && 0 <= i < |r.coros[k].frames| :: Inside(held, r.coros[k].frames[i])
  {
  }

  lemma RankedAfter(b: Base, s: Snap, held: set<Ptr>)
    requires Start(b) && Inv(b, s)
    requires forall c | c in Scopes(b, s, held) :: c in b.reach && c in s.ctxs && s.ctxs[c].prev == b.ctxs[c].prev
    ensures Ranked(s.ctxs, LiveAfter(b, s, held), b.rank)
  {
    FinalDomains(b, s, held);
    hide Inv, Survivors;
  }

  // ---------------------------------------------------------------------------
  // Heaps and ids

  /** Generation 0 is heap 0, generation 1 heap 1, and heap 2 waits to be copied to. */
  ghost predicate HeapsSound(mem: map<Ptr, Node>, heap0: set<Ptr>, heap1: set<Ptr>, heap2: set<Ptr>) {
    && mem.Keys == heap0 + heap1 && heap0 !! heap1 && heap2 == {}
    && forall a | a in mem :: mem[a].copy == 0 && mem[a].gen <= 1 && (mem[a].gen == 0 <==> a in heap0)
  }

  ghost predicate IdsSound(ctxs: map<Ptr, Context>, scopes: set<Ptr>, coros: seq<Coro>, wbCoro: seq<nat>, gen: nat, cid: nat) {
    && gen <= 1
    && (forall c | c in ctxs :: ctxs[c].cid <= cid && (c in scopes ==> ctxs[c].gen <= 1))
    && (forall k | 0 <= k < |coros| :: coros[k].cid <= cid)
    && (forall k | k in wbCoro :: k < |coros|)
  }

  /** What is left of the memory when a heap is given back. */
  function Without(mem: map<Ptr, Node>, heap: set<Ptr>): map<Ptr, Node> {
    map a | a in mem && a !in heap :: mem[a]
  }

  lemma WithoutNothing(mem: map<Ptr, Node>)
    ensures Without(mem, {}) == mem
  {
  }

  /** Giving back the heaps that were copied from leaves exactly the survivors. */
  lemma WhatIsLeft(b: Base, s: Snap, heap0: set<Ptr>, heap1: set<Ptr>)
    requires Inv(b, s) && b.gen <= 1 && HeapsSound(b.mem, heap0, heap1, {})
    ensures b.gen == 0 ==> Survivors(b, s) == Without(s.mem, heap0) && Survivors(b, s).Keys == heap1 + s.org.Keys
    ensures b.gen == 1 ==> Survivors(b, s) == Without(Without(s.mem, heap0), heap1) && Survivors(b, s).Keys == s.org.Keys
    ensures b.gen == 1 ==> Moved(b, s).Keys <= b.reach && Survivors(b, s).Keys <= Moved(b, s).Values
    ensures b.gen == 0 ==> forall a | a in b.mem && b.mem[a].gen == 1 :: a in Moved(b, s) && Moved(b, s)[a] == a
  {
    hide Visits;
    if b.gen == 1 {
      WhatIsLeftFull(b, s, heap0, heap1);
    } else {
      WhatIsLeftYoung(b, s, heap0, heap1);
    }
    hide Inv, Moved, Survivors, HeapsSound, Without;
  }

  lemma WhatIsLeftYoung(b: Base, s: Snap, heap0: set<Ptr>, heap1: set<Ptr>)
    requires Inv(b, s) && b.gen == 0 && HeapsSound(b.mem, heap0, heap1, {})
    ensures Survivors(b, s) == Without(s.mem, heap0) && Survivors(b, s).Keys == heap1 + s.org.Keys
    ensures forall a | a in b.mem && b.mem[a].gen == 1 :: a in Moved(b, s) && Moved(b, s)[a] == a
  {
    hide Visits;
    forall a | a in b.mem && Moves(b, a) ensures Original(b, s, a) {
    }
  }

  lemma WhatIsLeftFull(b: Base, s: Snap, heap0: set<Ptr>, heap1: set<Ptr>)
    requires Inv(b, s) && b.gen == 1 && HeapsSound(b.mem, heap0, heap1, {})
    ensures Survivors(b, s) == Without(Without(s.mem, heap0), heap1) && Survivors(b, s).Keys == s.org.Keys
    ensures Moved(b, s).Keys <= b.reach && Survivors(b, s).Keys <= Moved(b, s).Values
  {
    hide Visits;
    forall a | a in b.mem && Moves(b, a) ensures Original(b, s, a) {
    }
    forall n | n in s.org ensures n in Moved(b, s).Values {
      assert Copies(b, s, n);
      assert Moved(b, s)[s.org[n]] == n;
    }
  }

  lemma HeapsAfter(mem: map<Ptr, Node>, heap: set<Ptr>)
    requires mem.Keys == heap && forall a | a in mem :: mem[a].gen == 1 && mem[a].copy == 0
    ensures HeapsSound(mem, {}, heap, {})
  {
  }

  lemma IdsAfter(b: Base, s: Snap, held: set<Ptr>, r0: Roots, r1: Roots, last: nat, gen: nat)
    requires Inv(b, s) && ImgRoots(b, s, r0, r1) && b.cid == last + 1 && gen <= 1
    requires forall c | c in b.ctxs :: b.ctxs[c].cid <= last
    requires forall c | c in Scopes(b, s, held) :: c in s.ctxs && s.ctxs[c].gen == 1
    ensures IdsSound(s.ctxs, Scopes(b, s, held), r1.coros, [], gen, b.cid)
  {
    CorosVisited(b, s, r0.coros, r1.coros);
    forall c | c in s.ctxs ensures s.ctxs[c].cid <= b.cid {
      assert Visits(b, s, c);
    }
  }

  lemma TraversedFacts(b: Base, s: Snap, held: set<Ptr>, scopes0: set<Ptr>, l: Lists, done: set<Ptr>)
    requires Traversed(b, s, held, scopes0, l, done)
    ensures Start(b) && Inv(b, s) && held <= scopes0 && Scopes(b, s, held) <= scopes0
  {
    hide Start, Inv, Step, Remaining, Remembered, ScopesHeld, Settled;
  }

  /** Ids of slot tables over a collection: one that stays keeps its id, one that moves gets
      one that was not given out before. */
  ghost predicate TableIds(mem0: map<Ptr, Node>, mem1: map<Ptr, Node>, phi: map<Ptr, Ptr>, last: nat) {
    forall a | a in phi && a in mem0 && mem0[a].body.Table? ::
      && phi[a] in mem1 && mem1[phi[a]].body.Table?
      && (if phi[a] == a then mem1[a].body.uid == mem0[a].body.uid else mem1[phi[a]].body.uid > last)
  }

  lemma UidsAfter(b: Base, s: Snap)
    requires Inv(b, s)
    ensures Uids(Survivors(b, s), s.uid) && TableIds(b.mem, Survivors(b, s), Moved(b, s), b.uid)
  {
    hide Uids, Visits;
    UidsFewer(s.mem, s.uid, Survivors(b, s), s.uid);
    forall a | a in Moved(b, s) && b.mem[a].body.Table?
      ensures var q := Moved(b, s)[a];
              q in Survivors(b, s) && s.mem[q].body.Table? && (if q == a then s.mem[a].body.uid == b.mem[a].body.uid else s.mem[q].body.uid > b.uid)
    {
      if Moves(b, a) {
        assert Original(b, s, a) && Copies(b, s, s.mem[a].copy) && !Moves(b, s.mem[a].copy);
      } else {
        assert Stays(b, s, a);
      }
    }
  }

  /** The traversal and the destructors are over. */
  ghost predicate Over(
    b: Base, s: Snap, held: set<Ptr>, scopes0: set<Ptr>, l: Lists, r0: Roots, r1: Roots, refs: map<Ptr, int>, log: seq<Ptr>, des: seq<nat>)
  {
    && Traversed(b, s, held, scopes0, l, Listed(b, l)) && ImgRoots(b, s, r0, r1) && b.cid > 0
    && WfRoots(b.mem, b.ctxs, b.reach, r0) && FramesHeld(r0.coros, held) && LogOk(b.mem, log, des) && ScopesLogged(b.mem, log)
    && Counted(Holding(Survivors(b, s), Survivors(b, s).Keys, s.ctxs, Scopes(b, s, held), r1.coros), refs, {}, 0)
    && forall c | c in b.ctxs :: b.ctxs[c].cid <= b.cid - 1
  }

  /** All that is known when a traversal is over and memory has been given back. */
  lemma CollectionOver(
    b: Base, s: Snap, held: set<Ptr>, scopes0: set<Ptr>, l: Lists, r0: Roots, r1: Roots, refs: map<Ptr, int>, log: seq<Ptr>, des: seq<nat>, gen: nat)
    requires Over(b, s, held, scopes0, l, r0, r1, refs, log, des) && gen <= 1
    ensures Sound(Survivors(b, s), s.ctxs, Scopes(b, s, held), b.rank, r1, Lists([], [], []), refs, LogAfter(b, s, log), des + DeadIds(b, s, log))
    ensures Isomorphic(b.mem, b.ctxs, Survivors(b, s), s.ctxs, Moved(b, s), Scopes(b, s, held))
    ensures RootsMoved(Moved(b, s), r0, r1)
    ensures forall p | p in RootPtrs(r0) :: Covered(Moved(b, s), Scopes(b, s, held), p)
    ensures LogKept(b.mem, log, des, LogAfter(b, s, log), des + DeadIds(b, s, log), Moved(b, s))
    ensures forall a | a in Survivors(b, s) :: Survivors(b, s)[a].gen == 1
    ensures HeapsSound(Survivors(b, s), {}, Survivors(b, s).Keys, {})
    ensures Uids(Survivors(b, s), s.uid) && TableIds(b.mem, Survivors(b, s), Moved(b, s), b.uid)
    ensures Scopes(b, s, held) <= b.reach && IdsSound(s.ctxs, Scopes(b, s, held), r1.coros, [], gen, b.cid)
  {
    hide Inv, Start, Traversed, ImgRoots, WfRoots, LogOk, FramesHeld, LogAfter, DeadIds, Counted, Survivors, Scopes, Sound,
      Isomorphic, RootsMoved, LogKept, RootPtrs, Covered, Moved, HeapsSound, IdsSound, Listed, Uids, TableIds;
    TraversedFacts(b, s, held, scopes0, l, Listed(b, l));
    EndCollection(b, s, held, scopes0, l, Listed(b, l), r0, r1, refs, log, des);
    IdsAfter(b, s, held, r0, r1, b.cid - 1, gen);
    HeapsAfter(Survivors(b, s), Survivors(b, s).Keys);
    UidsAfter(b, s);
  }
}
