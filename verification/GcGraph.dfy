/** The memory the collector works on, seen as a value: objects, slot tables and
    contexts in one address space, and the relations a collection keeps.  Nothing
    here changes anything; `Collector.dfy` holds the collector itself. */
module GcGraph {

  /** An address; 0 is the null pointer. */
  type Ptr = nat

  datatype Entry = Entry(key: nat, val: Ptr)

  /** What lives in one of the three heaps.  `id` stands for everything in an
      object that is not a pointer; `items` are the pointers its type's traverser
      visits and `scope` is the context a function object closes over. */
  datatype Body =
    | Object(id: nat, slots: Ptr, proto: Ptr, items: seq<Ptr>, scope: Ptr)
    | Table(entries: seq<Entry>, uid: nat, shared: bool)

  /** A node and its mark word: generation, write-barrier flag, forwarding address. */
  datatype Node = Node(body: Body, gen: nat, wb: bool, copy: Ptr)

  /** Contexts are pool-allocated: a collection rewrites them where they are. */
  datatype Context = Context(obj: Ptr, slots: Ptr, prev: Ptr, cid: nat, gen: nat, wb: bool)

  /** The memory when a collection starts, with the traverser argument: `gen` is the
      oldest generation that moves, `cid` the id of this collection and `uid` the
      last slot-table id given out.  `reach` is a set of addresses closed under
      every edge, and `rank` decreases along `prev`. */
  datatype Base = Base(
    mem: map<Ptr, Node>, ctxs: map<Ptr, Context>,
    gen: nat, cid: nat, uid: nat,
    reach: set<Ptr>, rank: map<Ptr, nat>)

  /** The memory at some point of a collection; `org` maps every copy made so far
      to the address it was copied from, and `uid` is the last slot-table id given out. */
  datatype Snap = Snap(mem: map<Ptr, Node>, ctxs: map<Ptr, Context>, org: map<Ptr, Ptr>, uid: nat)

  // ---------------------------------------------------------------------------
  // Well-typed pointers

  ghost predicate IsObject(mem: map<Ptr, Node>, live: set<Ptr>, p: Ptr) {
    p == 0 || (p in live && p in mem && mem[p].body.Object?)
  }

  ghost predicate IsTable(mem: map<Ptr, Node>, live: set<Ptr>, p: Ptr) {
    p == 0 || (p in live && p in mem && mem[p].body.Table?)
  }

  ghost predicate IsContext(ctxs: map<Ptr, Context>, live: set<Ptr>, p: Ptr) {
    p == 0 || (p in live && p in ctxs)
  }

  ghost predicate WfBody(mem: map<Ptr, Node>, ctxs: map<Ptr, Context>, live: set<Ptr>, n: Body) {
    match n
    case Object(_, slots, proto, items, scope) =>
      && IsTable(mem, live, slots)
      && IsObject(mem, live, proto)
      && (forall i | 0 <= i < |items| :: IsObject(mem, live, items[i]))
      && IsContext(ctxs, live, scope)
    case Table(entries, _, _) =>
      forall i | 0 <= i < |entries| ::
        IsObject(mem, live, entries[i].val) && (entries[i].key == 0 ==> entries[i].val == 0)
  }

  ghost predicate WfContext(mem: map<Ptr, Node>, ctxs: map<Ptr, Context>, live: set<Ptr>, c: Context) {
    && IsObject(mem, live, c.obj)
    && IsTable(mem, live, c.slots)
    && IsContext(ctxs, live, c.prev)
  }

  /** `live` is closed under every edge and every pointer in it has the right kind. */
  ghost predicate Closed(mem: map<Ptr, Node>, ctxs: map<Ptr, Context>, live: set<Ptr>) {
    && (forall a | a in live && a in mem :: WfBody(mem, ctxs, live, mem[a].body))
    && (forall c | c in live && c in ctxs :: WfContext(mem, ctxs, live, ctxs[c]))
  }

  ghost predicate Ranked(ctxs: map<Ptr, Context>, live: set<Ptr>, rank: map<Ptr, nat>) {
    forall c | c in live && c in ctxs ::
      c in rank && (ctxs[c].prev != 0 ==> ctxs[c].prev in rank && rank[ctxs[c].prev] < rank[c])
  }

  ghost predicate Addresses(mem: map<Ptr, Node>, ctxs: map<Ptr, Context>) {
    mem.Keys !! ctxs.Keys && 0 !in mem && 0 !in ctxs
  }

  ghost predicate HasUid(mem: map<Ptr, Node>, a: Ptr, uid: nat) {
    a in mem && mem[a].body.Table? && mem[a].body.uid == uid
  }

  /** Every slot table has an id of its own, and `last` is none that is yet to come. */
  ghost predicate Uids(mem: map<Ptr, Node>, last: nat) {
    && (forall a, uid: nat | HasUid(mem, a, uid) :: uid <= last)
    && (forall a, d, uid: nat | HasUid(mem, a, uid) && HasUid(mem, d, uid) :: a == d)
  }

  /** A node with an id that is not in use, if it is a table. */
  ghost predicate OwnUid(mem: map<Ptr, Node>, last: nat, n: Body) {
    n.Table? ==> n.uid <= last && forall a :: !HasUid(mem, a, n.uid)
  }

  lemma UidsAdd(mem: map<Ptr, Node>, last: nat, a: Ptr, n: Node)
    requires Uids(mem, last) && OwnUid(mem, last, n.body) && a !in mem
    ensures Uids(mem[a := n], last)
  {
    UidsMore(mem, mem[a := n], last, a);
  }

  lemma UidsMore(mem: map<Ptr, Node>, r: map<Ptr, Node>, last: nat, a: Ptr)
    requires Uids(mem, last) && a in r && OwnUid(mem, last, r[a].body)
    requires forall d | d in r && d != a :: d in mem && r[d] == mem[d]
    ensures Uids(r, last)
  {
    forall d, uid: nat | HasUid(r, d, uid) ensures uid <= last && (d != a ==> HasUid(mem, d, uid)) {
      if d != a {
        assert HasUid(mem, d, uid);
      }
    }
    forall d, e, uid: nat | HasUid(r, d, uid) && HasUid(r, e, uid) ensures d == e {
    }
  }

  /** Neither a node's other parts nor a larger bound make a difference. */
  lemma UidsSame(mem: map<Ptr, Node>, last: nat, a: Ptr, n: Node)
    requires Uids(mem, last) && a in mem && (n.body.Table? ==> mem[a].body.Table? && n.body.uid == mem[a].body.uid)
    ensures Uids(mem[a := n], last)
  {
    var r := mem[a := n];
    forall d, uid: nat | HasUid(r, d, uid) ensures HasUid(mem, d, uid) {
    }
  }

  lemma UidsFewer(mem: map<Ptr, Node>, last: nat, r: map<Ptr, Node>, last': nat)
    requires Uids(mem, last) && last <= last' && forall a | a in r :: a in mem && r[a] == mem[a]
    ensures Uids(r, last')
  {
    forall d, uid: nat | HasUid(r, d, uid) ensures HasUid(mem, d, uid) {
    }
  }

  // ---------------------------------------------------------------------------
  // Images: what a pointer has become

  /** Does this collection move `a`?  A full collection moves everything, a partial
      one the nodes of generation 0. */
  ghost predicate Moves(b: Base, a: Ptr) {
    a in b.mem && b.mem[a].gen <= b.gen
  }

  /** `q` is what `p` has to become: its copy if `p` moves, `p` itself otherwise. */
  ghost predicate Img(b: Base, s: Snap, p: Ptr, q: Ptr) {
    if p == 0 then q == 0
    else p in b.mem && p in s.mem && (if Moves(b, p) then q == s.mem[p].copy && q != 0 else q == p)
  }

  /** A context needs no further work: it was visited in this collection, or it is
      too old to be part of it and its write barrier never fired. */
  ghost predicate Settled(b: Base, s: Snap, c: Ptr) {
    c == 0 || (c in s.ctxs && (s.ctxs[c].cid == b.cid || (s.ctxs[c].gen > b.gen && !s.ctxs[c].wb)))
  }

  ghost predicate ImgSeq(b: Base, s: Snap, ps: seq<Ptr>, qs: seq<Ptr>) {
    |ps| == |qs| && forall i | 0 <= i < |ps| :: Img(b, s, ps[i], qs[i])
  }

  ghost predicate ImgEntries(b: Base, s: Snap, es: seq<Entry>, fs: seq<Entry>) {
    && |es| == |fs|
    && forall i | 0 <= i < |es| :: fs[i].key == es[i].key && Img(b, s, es[i].val, fs[i].val)
  }

  /** `n` is the finished version of `o`: same contents, every pointer replaced by its image. */
  ghost predicate ImgBody(b: Base, s: Snap, o: Body, n: Body) {
    match o
    case Object(id, slots, proto, items, scope) =>
      && n.Object? && n.id == id && n.scope == scope && Settled(b, s, scope)
      && Img(b, s, slots, n.slots) && Img(b, s, proto, n.proto) && ImgSeq(b, s, items, n.items)
    case Table(entries, _, shared) =>
      n.Table? && n.shared == shared && ImgEntries(b, s, entries, n.entries)
  }

  ghost predicate ImgContext(b: Base, s: Snap, o: Context, n: Context) {
    && Img(b, s, o.obj, n.obj) && Img(b, s, o.slots, n.slots)
    && n.prev == o.prev && n.cid == b.cid && n.gen == 1 && !n.wb
  }

  /** Finished, and so is the whole chain of enclosing scopes. */
  ghost predicate DoneContext(b: Base, s: Snap, o: Context, n: Context) {
    ImgContext(b, s, o, n) && Settled(b, s, o.prev)
  }

  // ---------------------------------------------------------------------------
  // What every moment of a collection satisfies

  /** What the base of a collection satisfies. */
  ghost predicate Start(b: Base) {
    && Addresses(b.mem, b.ctxs)
    && Closed(b.mem, b.ctxs, b.reach)
    && Ranked(b.ctxs, b.reach, b.rank)
    && (forall a | a in b.mem :: b.mem[a].gen <= 1 && b.mem[a].copy == 0)
    && (forall c | c in b.ctxs :: b.ctxs[c].cid != b.cid && (c in b.reach ==> b.ctxs[c].gen <= 1))
    && b.gen <= 1 && Uids(b.mem, b.uid)
  }

  ghost predicate Copies(b: Base, s: Snap, n: Ptr) {
    && n in s.mem && n in s.org
    && s.org[n] in b.mem && s.org[n] in b.reach && Moves(b, s.org[n])
    && s.org[n] in s.mem && s.mem[s.org[n]].copy == n
    && s.mem[n].gen == 1 && s.mem[n].copy == 0 && !s.mem[n].wb
    && (s.mem[n].body.Object? <==> b.mem[s.org[n]].body.Object?)
    && (s.mem[n].body.Table? ==> s.mem[n].body.uid > b.uid)
  }

  ghost predicate Original(b: Base, s: Snap, a: Ptr) {
    && a in s.mem && a in b.mem
    && s.mem[a].body == b.mem[a].body && s.mem[a].gen == b.mem[a].gen
    && (s.mem[a].copy != 0 ==> s.mem[a].copy in s.org && s.org[s.mem[a].copy] == a)
  }

  ghost predicate Stays(b: Base, s: Snap, a: Ptr) {
    && a in s.mem && a in b.mem
    && s.mem[a].gen == 1 && s.mem[a].copy == 0 && (s.mem[a].body.Object? <==> b.mem[a].body.Object?)
    && (s.mem[a].body.Table? && b.mem[a].body.Table? ==> s.mem[a].body.uid == b.mem[a].body.uid)
  }

  /** A traversal stops at contexts too old to be part of the collection and unmarked. */
  ghost predicate PassedOver(b: Base, c: Ptr) {
    c in b.ctxs && b.ctxs[c].gen > b.gen && !b.ctxs[c].wb
  }

  ghost predicate Visits(b: Base, s: Snap, c: Ptr) {
    && c in s.ctxs && c in b.ctxs
    && if s.ctxs[c].cid == b.cid then c in b.reach && s.ctxs[c].prev == b.ctxs[c].prev && !PassedOver(b, c)
       else s.ctxs[c] == b.ctxs[c]
  }

  ghost predicate Domains(b: Base, s: Snap) {
    && Addresses(s.mem, s.ctxs)
    && s.mem.Keys == b.mem.Keys + s.org.Keys && b.mem.Keys !! s.org.Keys
    && s.ctxs.Keys == b.ctxs.Keys
  }

  /** Every copy has one original and every forwarded original one copy; originals
      keep their contents; contexts are untouched until visited. */
  ghost predicate Inv(b: Base, s: Snap) {
    && Domains(b, s)
    && (forall a | a in b.mem && Moves(b, a) :: Original(b, s, a))
    && (forall n | n in s.org :: Copies(b, s, n))
    && (forall a | a in b.mem && !Moves(b, a) :: Stays(b, s, a))
    && (forall c | c in s.ctxs :: Visits(b, s, c))
    && Uids(s.mem, s.uid)
  }

  /** From `s` to `t` only unforwarded originals and unvisited contexts changed, and
      whatever is new in `t` is finished.  Addresses in `x` are exempt: they are
      being worked on. */
  ghost predicate Step(b: Base, s: Snap, t: Snap, x: set<Ptr>) {
    && s.mem.Keys <= t.mem.Keys
    && (forall n | n in s.org :: n in t.org && t.org[n] == s.org[n])
    && (forall a | a in s.mem && a !in x && !(Moves(b, a) && s.mem[a].copy == 0) :: t.mem[a] == s.mem[a])
    && (forall a | a in s.mem && Moves(b, a) && s.mem[a].copy != 0 :: t.mem[a].copy == s.mem[a].copy)
    && (forall c | c in s.ctxs && s.ctxs[c].cid == b.cid :: c in t.ctxs && t.ctxs[c].cid == b.cid)
    && (forall c | c in s.ctxs && s.ctxs[c].cid == b.cid && c !in x :: t.ctxs[c] == s.ctxs[c])
    && (forall n | n in t.org && n !in s.org && n !in x :: n in t.mem && t.org[n] in b.mem && ImgBody(b, t, b.mem[t.org[n]].body, t.mem[n].body))
    && (forall c | c in t.ctxs && t.ctxs[c].cid == b.cid && c !in x && c in b.ctxs && c in s.ctxs && s.ctxs[c].cid != b.cid ::
          DoneContext(b, t, b.ctxs[c], t.ctxs[c]))
  }

  lemma ImgKept(b: Base, s: Snap, t: Snap, x: set<Ptr>, p: Ptr, q: Ptr)
    requires Step(b, s, t, x) && Img(b, s, p, q)
    ensures Img(b, t, p, q)
  {
  }

  lemma SettledKept(b: Base, s: Snap, t: Snap, x: set<Ptr>, c: Ptr)
    requires Inv(b, s) && Inv(b, t) && Step(b, s, t, x) && Settled(b, s, c)
    ensures Settled(b, t, c)
  {
  }

  lemma ImgBodyKept(b: Base, s: Snap, t: Snap, x: set<Ptr>, o: Body, n: Body)
    requires Inv(b, s) && Inv(b, t) && Step(b, s, t, x) && ImgBody(b, s, o, n)
    ensures ImgBody(b, t, o, n)
  {
    match o
    case Object(_, slots, proto, items, scope) =>
      SettledKept(b, s, t, x, scope);
      ImgKept(b, s, t, x, slots, n.slots);
      ImgKept(b, s, t, x, proto, n.proto);
      forall i | 0 <= i < |items| ensures Img(b, t, items[i], n.items[i]) {
        ImgKept(b, s, t, x, items[i], n.items[i]);
      }
    case Table(entries, _, _) =>
      forall i | 0 <= i < |entries| ensures Img(b, t, entries[i].val, n.entries[i].val) {
        ImgKept(b, s, t, x, entries[i].val, n.entries[i].val);
      }
  }

  lemma ImgContextKept(b: Base, s: Snap, t: Snap, x: set<Ptr>, o: Context, n: Context)
    requires Step(b, s, t, x) && ImgContext(b, s, o, n)
    ensures ImgContext(b, t, o, n)
  {
    ImgKept(b, s, t, x, o.obj, n.obj);
    ImgKept(b, s, t, x, o.slots, n.slots);
  }

  lemma NodeThrough(b: Base, s: Snap, t: Snap, u: Snap, x: set<Ptr>, y: set<Ptr>, n: Ptr)
    requires Inv(b, t) && Inv(b, u) && Step(b, s, t, x) && Step(b, t, u, y)
    requires n in u.org && n !in s.org && n !in x && n !in y
    ensures n in u.mem && u.org[n] in b.mem && ImgBody(b, u, b.mem[u.org[n]].body, u.mem[n].body)
  {
    if n in t.org {
      assert n in t.mem && !Moves(b, n) && t.org[n] == u.org[n] && u.mem[n] == t.mem[n];
      hide Inv, Step, ImgBody;
      ImgBodyKept(b, t, u, y, b.mem[t.org[n]].body, t.mem[n].body);
    }
  }

  lemma ContextThrough(b: Base, s: Snap, t: Snap, u: Snap, x: set<Ptr>, y: set<Ptr>, c: Ptr)
    requires Inv(b, t) && Inv(b, u) && Step(b, s, t, x) && Step(b, t, u, y)
    requires c in u.ctxs && u.ctxs[c].cid == b.cid && c !in x && c !in y && c in b.ctxs && c in s.ctxs && c in t.ctxs && s.ctxs[c].cid != b.cid
    ensures DoneContext(b, u, b.ctxs[c], u.ctxs[c])
  {
    hide Inv, ImgBody, Img;
    if t.ctxs[c].cid == b.cid {
      assert u.ctxs[c] == t.ctxs[c] && DoneContext(b, t, b.ctxs[c], t.ctxs[c]);
      hide Step;
      ImgContextKept(b, t, u, y, b.ctxs[c], t.ctxs[c]);
      SettledKept(b, t, u, y, b.ctxs[c].prev);
    }
  }

  lemma SameContexts(b: Base, s: Snap, t: Snap)
    requires Inv(b, s) && Inv(b, t)
    ensures s.ctxs.Keys == t.ctxs.Keys
  {
    hide Uids, Copies, Original, Stays, Visits;
  }

  /** Steps compose. */
  lemma StepTrans(b: Base, s: Snap, t: Snap, u: Snap, x: set<Ptr>, y: set<Ptr>, z: set<Ptr>)
    requires Inv(b, s) && Inv(b, t) && Inv(b, u)
    requires Step(b, s, t, x) && Step(b, t, u, y) && x <= z && y <= z
    ensures Step(b, s, u, z)
  {
    hide Inv, ImgBody, DoneContext;
    SameContexts(b, s, t);
    forall n | n in u.org && n !in s.org && n !in z
      ensures n in u.mem && u.org[n] in b.mem && ImgBody(b, u, b.mem[u.org[n]].body, u.mem[n].body)
    {
      NodeThrough(b, s, t, u, x, y, n);
    }
    forall c | c in u.ctxs && u.ctxs[c].cid == b.cid && c !in z && c in b.ctxs && c in s.ctxs && s.ctxs[c].cid != b.cid
      ensures DoneContext(b, u, b.ctxs[c], u.ctxs[c])
    {
      ContextThrough(b, s, t, u, x, y, c);
    }
  }

  /** A node or context that was being worked on is finished. */
  lemma StepClose(b: Base, s: Snap, t: Snap, x: set<Ptr>, p: Ptr)
    requires Step(b, s, t, x)
    requires p in s.mem ==> t.mem[p] == s.mem[p]
    requires p in s.ctxs && s.ctxs[p].cid == b.cid ==> p in t.ctxs && t.ctxs[p] == s.ctxs[p]
    requires p in t.org && p !in s.org ==> p in t.mem && t.org[p] in b.mem && ImgBody(b, t, b.mem[t.org[p]].body, t.mem[p].body)
    requires p in t.ctxs && p in b.ctxs && p in s.ctxs && s.ctxs[p].cid != b.cid && t.ctxs[p].cid == b.cid ==>
               DoneContext(b, t, b.ctxs[p], t.ctxs[p])
    ensures Step(b, s, t, x - {p})
  {
  }

  /** What is left to do: originals not forwarded and contexts not visited. */
  ghost function Todo(b: Base, s: Snap): set<Ptr> {
    (set a | a in s.mem && Moves(b, a) && s.mem[a].copy == 0) + (set c | c in s.ctxs && s.ctxs[c].cid != b.cid)
  }

  lemma TodoShrinks(b: Base, s: Snap, t: Snap, x: set<Ptr>)
    requires Inv(b, s) && Inv(b, t) && Step(b, s, t, x)
    ensures Todo(b, t) <= Todo(b, s)
  {
  }

  /** The memory after `a` was copied to `n` and its mark word set to point there. */
  ghost function Forwarded(s: Snap, a: Ptr, n: Ptr, copy: Node, wb: bool): Snap
    requires a in s.mem
  {
    Snap(s.mem[n := copy][a := s.mem[a].(copy := n, wb := wb)], s.ctxs, s.org[n := a], s.uid)
  }

  ghost predicate CanForward(b: Base, s: Snap, a: Ptr, n: Ptr, copy: Node) {
    && Start(b) && Inv(b, s)
    && a in b.reach && Moves(b, a) && a in s.mem && s.mem[a].copy == 0
    && n != 0 && n !in s.mem && n !in s.ctxs
    && copy.gen == 1 && copy.copy == 0 && !copy.wb && (copy.body.Object? <==> s.mem[a].body.Object?)
    && (copy.body.Table? ==> copy.body.uid > b.uid) && OwnUid(s.mem, s.uid, copy.body)
  }

  lemma ForwardUids(b: Base, s: Snap, a: Ptr, n: Ptr, copy: Node, wb: bool)
    requires CanForward(b, s, a, n, copy)
    ensures var t := Forwarded(s, a, n, copy, wb); Uids(t.mem, t.uid)
  {
    hide Uids, Copies, Original, Stays, Visits, Start, OwnUid;
    UidsAdd(s.mem, s.uid, n, copy);
    UidsSame(s.mem[n := copy], s.uid, a, s.mem[a].(copy := n, wb := wb));
  }

  lemma ForwardInv(b: Base, s: Snap, a: Ptr, n: Ptr, copy: Node, wb: bool)
    requires CanForward(b, s, a, n, copy)
    ensures Inv(b, Forwarded(s, a, n, copy, wb))
  {
    hide Uids, Copies, Original, Stays, Visits, Moves, Start, Closed, Forwarded, OwnUid;
    var t := Forwarded(s, a, n, copy, wb);
    ForwardUids(b, s, a, n, copy, wb);
    ForwardDomains(b, s, a, n, copy, wb);
    forall m | m in t.org ensures Copies(b, t, m) {
      ForwardCopies(b, s, a, n, copy, wb, m);
    }
    forall m | m in b.mem && Moves(b, m) ensures Original(b, t, m) {
      ForwardOriginal(b, s, a, n, copy, wb, m);
    }
    forall m | m in b.mem && !Moves(b, m) ensures Stays(b, t, m) {
      ForwardStays(b, s, a, n, copy, wb, m);
    }
    forall c | c in t.ctxs ensures Visits(b, t, c) {
      ForwardVisits(b, s, a, n, copy, wb, c);
    }
  }

  lemma ForwardDomains(b: Base, s: Snap, a: Ptr, n: Ptr, copy: Node, wb: bool)
    requires CanForward(b, s, a, n, copy)
    ensures var t := Forwarded(s, a, n, copy, wb);
            Domains(b, t) && t.ctxs.Keys == s.ctxs.Keys && t.org.Keys == s.org.Keys + {n}
  {
    hide Uids, Copies, Original, Stays, Visits, Start;
    var t := Forwarded(s, a, n, copy, wb);
    assert t.mem.Keys == s.mem.Keys + {n};
  }

  lemma ForwardCopies(b: Base, s: Snap, a: Ptr, n: Ptr, copy: Node, wb: bool, m: Ptr)
    requires CanForward(b, s, a, n, copy) && (m == n || m in s.org)
    ensures Copies(b, Forwarded(s, a, n, copy, wb), m)
  {
    hide Uids, Stays, Visits, Start;
    assert m == n || Copies(b, s, m);
    assert Original(b, s, a);
  }

  lemma ForwardOriginal(b: Base, s: Snap, a: Ptr, n: Ptr, copy: Node, wb: bool, m: Ptr)
    requires CanForward(b, s, a, n, copy) && Moves(b, m)
    ensures Original(b, Forwarded(s, a, n, copy, wb), m)
  {
    hide Uids, Copies, Stays, Visits, Start;
    assert Original(b, s, m);
  }

  lemma ForwardStays(b: Base, s: Snap, a: Ptr, n: Ptr, copy: Node, wb: bool, m: Ptr)
    requires CanForward(b, s, a, n, copy) && m in b.mem && !Moves(b, m)
    ensures Stays(b, Forwarded(s, a, n, copy, wb), m)
  {
    hide Uids, Copies, Original, Visits, Start;
    assert Stays(b, s, m);
  }

  lemma ForwardVisits(b: Base, s: Snap, a: Ptr, n: Ptr, copy: Node, wb: bool, c: Ptr)
    requires CanForward(b, s, a, n, copy) && c in s.ctxs
    ensures Visits(b, Forwarded(s, a, n, copy, wb), c)
  {
    hide Uids, Copies, Original, Stays, Start;
    assert Visits(b, s, c);
  }

  lemma ForwardTodo(b: Base, s: Snap, a: Ptr, n: Ptr, copy: Node, wb: bool)
    requires CanForward(b, s, a, n, copy)
    ensures Todo(b, Forwarded(s, a, n, copy, wb)) < Todo(b, s)
  {
    hide Uids, Copies, Original, Stays, Visits, Start;
    var t := Forwarded(s, a, n, copy, wb);
    assert !Moves(b, n);
    assert a in Todo(b, s) && a !in Todo(b, t);
    assert Todo(b, t) <= Todo(b, s);
  }

  lemma ForwardStep(b: Base, s: Snap, a: Ptr, n: Ptr, copy: Node, wb: bool)
    requires CanForward(b, s, a, n, copy)
    ensures Step(b, s, Forwarded(s, a, n, copy, wb), {n})
    ensures Todo(b, Forwarded(s, a, n, copy, wb)) < Todo(b, s)
  {
    hide Uids, Copies, Original, Stays, Visits, Start, ImgBody, DoneContext, Todo;
    ForwardTodo(b, s, a, n, copy, wb);
    var t := Forwarded(s, a, n, copy, wb);
    assert !Moves(b, n);
  }

  /** Rewriting the pointers of a copy, or of a node that does not move. */
  lemma Rewrite(b: Base, s: Snap, a: Ptr, n: Node)
    requires Inv(b, s) && a in s.mem && !Moves(b, a)
    requires n.gen == 1 && n.copy == 0 && (n.body.Object? <==> s.mem[a].body.Object?)
    requires s.mem[a].wb || !n.wb
    requires n.body.Table? ==> n.body.uid == s.mem[a].body.uid
    ensures Inv(b, s.(mem := s.mem[a := n])) && Step(b, s, s.(mem := s.mem[a := n]), {a})
  {
    hide Uids;
    var t := s.(mem := s.mem[a := n]);
    UidsSame(s.mem, s.uid, a, n);
    assert Domains(b, t) by { hide Uids, Copies, Original, Stays, Visits; assert t.mem.Keys == s.mem.Keys; }
    forall m | m in s.org ensures Copies(b, t, m) {
      RewriteCopies(b, s, a, n, m);
    }
    forall m | m in b.mem && !Moves(b, m) ensures Stays(b, t, m) {
      hide Uids, Copies, Original, Visits;
      assert Stays(b, s, m);
    }
    forall m | m in b.mem && Moves(b, m) ensures Original(b, t, m) {
      hide Uids, Copies, Stays, Visits;
      assert Original(b, s, m);
    }
    forall c | c in t.ctxs ensures Visits(b, t, c) {
      hide Uids, Copies, Original, Stays;
      assert Visits(b, s, c);
    }
    hide Uids, Copies, Original, Stays, Visits;
  }

  lemma RewriteCopies(b: Base, s: Snap, a: Ptr, n: Node, m: Ptr)
    requires Inv(b, s) && a in s.mem && !Moves(b, a) && m in s.org
    requires n.gen == 1 && n.copy == 0 && (n.body.Object? <==> s.mem[a].body.Object?)
    requires s.mem[a].wb || !n.wb
    requires n.body.Table? ==> n.body.uid == s.mem[a].body.uid
    ensures Copies(b, s.(mem := s.mem[a := n]), m)
  {
    hide Uids, Original, Stays, Visits;
    assert Copies(b, s, m);
  }

  lemma SameNodes(b: Base, s: Snap, ctxs: map<Ptr, Context>)
    requires Inv(b, s) && ctxs.Keys == s.ctxs.Keys && forall c | c in ctxs :: Visits(b, s.(ctxs := ctxs), c)
    ensures Inv(b, s.(ctxs := ctxs))
  {
    hide Visits;
    var t := s.(ctxs := ctxs);
    assert forall n | n in t.org :: Copies(b, t, n) by { hide Uids, Original, Stays; }
    assert forall a | a in b.mem && Moves(b, a) :: Original(b, t, a) by { hide Uids, Copies, Stays; }
    assert forall a | a in b.mem && !Moves(b, a) :: Stays(b, t, a) by { hide Uids, Copies, Original; }
    hide Uids, Copies, Original, Stays;
  }

  /** Rewriting a context that is being visited. */
  lemma RewriteContext(b: Base, s: Snap, c: Ptr, n: Context)
    requires Inv(b, s) && c in s.ctxs && c in b.reach && n.cid == b.cid && n.prev == s.ctxs[c].prev && !PassedOver(b, c)
    ensures Inv(b, s.(ctxs := s.ctxs[c := n])) && Step(b, s, s.(ctxs := s.ctxs[c := n]), {c})
    ensures s.ctxs[c].cid != b.cid ==> Todo(b, s.(ctxs := s.ctxs[c := n])) < Todo(b, s)
  {
    hide Uids, Copies, Original, Stays, ImgBody, DoneContext;
    var t := s.(ctxs := s.ctxs[c := n]);
    forall d | d in t.ctxs ensures Visits(b, t, d) {
      assert Visits(b, s, d);
    }
    SameNodes(b, s, t.ctxs);
    hide Inv;
    if s.ctxs[c].cid != b.cid {
      assert c in Todo(b, s) && c !in Todo(b, t);
    }
  }

  /** Another id is given out: nobody has it yet. */
  lemma NextUid(b: Base, s: Snap)
    requires Inv(b, s)
    ensures var t := s.(uid := s.uid + 1);
            Inv(b, t) && Step(b, s, t, {}) && Todo(b, t) == Todo(b, s)
            && forall n: Body | n.Table? && n.uid == t.uid :: OwnUid(t.mem, t.uid, n)
  {
    hide Copies, Original, Stays, Visits, ImgBody, DoneContext;
    var t := s.(uid := s.uid + 1);
    assert Inv(b, t) by {
      UidsFewer(s.mem, s.uid, t.mem, t.uid);
      SameButUid(b, s, t);
    }
  }

  lemma SameButUid(b: Base, s: Snap, t: Snap)
    requires Inv(b, s) && t == s.(uid := t.uid) && Uids(t.mem, t.uid)
    ensures Inv(b, t)
  {
    hide Uids;
    assert forall n | n in t.org :: Copies(b, t, n) by { hide Original, Stays, Visits; }
    assert forall a | a in b.mem && Moves(b, a) :: Original(b, t, a) by { hide Copies, Stays, Visits; }
    assert forall a | a in b.mem && !Moves(b, a) :: Stays(b, t, a) by { hide Copies, Original, Visits; }
    assert forall c | c in t.ctxs :: Visits(b, t, c) by { hide Copies, Original, Stays; }
    hide Copies, Original, Stays, Visits;
  }

  lemma StepRefl(b: Base, s: Snap)
    ensures Step(b, s, s, {})
  {
  }

  /** What is known about a node of the base. */
  lemma NodeFacts(b: Base, s: Snap, a: Ptr)
    requires Start(b) && Inv(b, s) && a in b.mem
    ensures a != 0 && a in s.mem && (s.mem[a].body.Object? <==> b.mem[a].body.Object?)
    ensures Moves(b, a) ==> s.mem[a].body == b.mem[a].body && s.mem[a].gen == b.mem[a].gen
    ensures !Moves(b, a) ==> s.mem[a].gen == 1 && s.mem[a].copy == 0
    ensures a in b.reach ==> WfBody(b.mem, b.ctxs, b.reach, b.mem[a].body)
    ensures b.mem[a].gen <= 1
  {
  }

  lemma CopyFacts(b: Base, s: Snap, n: Ptr)
    requires Inv(b, s) && n in s.org
    ensures n in s.mem && n !in b.mem && s.mem[n].gen == 1 && s.mem[n].copy == 0 && !s.mem[n].wb
  {
  }

  lemma ContextFacts(b: Base, s: Snap, c: Ptr)
    requires Start(b) && Inv(b, s) && c in b.reach && c in b.ctxs
    ensures c in s.ctxs && (s.ctxs[c].cid != b.cid ==> s.ctxs[c] == b.ctxs[c])
    ensures WfContext(b.mem, b.ctxs, b.reach, b.ctxs[c]) && c in b.rank
    ensures b.ctxs[c].prev != 0 ==> b.ctxs[c].prev in b.rank && b.rank[b.ctxs[c].prev] < b.rank[c]
  {
  }

  /** While the node at `a` is being worked on, a traversal leaves it alone and then
      one of its pointers is rewritten. */
  lemma CallThenRewrite(b: Base, s0: Snap, s1: Snap, s2: Snap, a: Ptr, n: Node)
    requires Inv(b, s0) && Inv(b, s1) && Inv(b, s2)
    requires Step(b, s0, s1, {a}) && Step(b, s1, s2, {}) && a in s1.mem && !Moves(b, a)
    requires n.gen == 1 && n.copy == 0 && (n.body.Object? <==> s1.mem[a].body.Object?)
    requires s1.mem[a].wb || !n.wb
    requires n.body.Table? ==> n.body.uid == s1.mem[a].body.uid
    ensures a in s2.mem && s2.mem[a] == s1.mem[a]
    ensures var s3 := s2.(mem := s2.mem[a := n]);
            Inv(b, s3) && Step(b, s0, s3, {a}) && Step(b, s1, s3, {a}) && Step(b, s2, s3, {a})
            && Todo(b, s3) <= Todo(b, s0)
  {
    var s3 := s2.(mem := s2.mem[a := n]);
    StillThere(b, s1, s2, a);
    Rewrite(b, s2, a, n);
    StepTrans(b, s1, s2, s3, {}, {a}, {a});
    StepTrans(b, s0, s1, s3, {a}, {a}, {a});
    TodoShrinks(b, s0, s3, {a});
  }

  lemma VisitedContext(b: Base, s: Snap, c: Ptr)
    requires Inv(b, s) && c in s.ctxs && s.ctxs[c].cid == b.cid
    ensures !PassedOver(b, c) && c in b.reach
  {
    hide Uids, Copies, Original, Stays, PassedOver;
    assert Visits(b, s, c);
  }

  /** The same for a context. */
  lemma CallThenRewriteContext(b: Base, s0: Snap, s1: Snap, s2: Snap, c: Ptr, n: Context)
    requires Inv(b, s0) && Inv(b, s1) && Inv(b, s2)
    requires Step(b, s0, s1, {c}) && Step(b, s1, s2, {}) && c in s1.ctxs && c in b.reach
    requires s1.ctxs[c].cid == b.cid && n.cid == b.cid && n.prev == s1.ctxs[c].prev
    ensures c in s2.ctxs && s2.ctxs[c] == s1.ctxs[c]
    ensures var s3 := s2.(ctxs := s2.ctxs[c := n]);
            Inv(b, s3) && Step(b, s0, s3, {c}) && Step(b, s1, s3, {c}) && Step(b, s2, s3, {c})
            && Todo(b, s3) <= Todo(b, s0)
  {
    hide Inv, Step, Todo;
    var s3 := s2.(ctxs := s2.ctxs[c := n]);
    VisitedStays(b, s1, s2, c);
    VisitedContext(b, s1, c);
    RewriteContext(b, s2, c, n);
    StepTrans(b, s1, s2, s3, {}, {c}, {c});
    StepTrans(b, s0, s1, s3, {c}, {c}, {c});
    TodoShrinks(b, s0, s3, {c});
  }

  lemma VisitedStays(b: Base, s: Snap, t: Snap, c: Ptr)
    requires Step(b, s, t, {}) && c in s.ctxs && s.ctxs[c].cid == b.cid
    ensures c in t.ctxs && t.ctxs[c] == s.ctxs[c]
  {
  }

  /** A node that does not move keeps its body as long as nobody works on it. */
  lemma StillThere(b: Base, s: Snap, t: Snap, a: Ptr)
    requires Step(b, s, t, {}) && a in s.mem && !Moves(b, a)
    ensures a in t.mem && t.mem[a] == s.mem[a]
  {
  }

  lemma MakeCanForward(b: Base, s: Snap, a: Ptr, n: Ptr, copy: Node)
    requires Start(b) && Inv(b, s) && a in b.reach && Moves(b, a) && a in s.mem && s.mem[a].copy == 0
    requires n != 0 && n !in s.mem && n !in s.ctxs
    requires copy.gen == 1 && copy.copy == 0 && !copy.wb && (copy.body.Object? <==> s.mem[a].body.Object?)
    requires (copy.body.Table? ==> copy.body.uid > b.uid) && OwnUid(s.mem, s.uid, copy.body)
    ensures CanForward(b, s, a, n, copy)
  {
  }

  lemma StepWiden(b: Base, s: Snap, t: Snap, x: set<Ptr>, y: set<Ptr>)
    requires Step(b, s, t, x) && x <= y
    ensures Step(b, s, t, y)
  {
  }

  /** The first `i` entries are finished, the others untouched. */
  ghost predicate ImgUpTo(b: Base, s: Snap, es: seq<Entry>, fs: seq<Entry>, i: nat) {
    && i <= |es| == |fs|
    && (forall k | 0 <= k < i :: fs[k].key == es[k].key && Img(b, s, es[k].val, fs[k].val))
    && (forall k | i <= k < |es| :: fs[k] == es[k])
  }

  lemma NoneForwarded(b: Base, s: Snap, es: seq<Entry>)
    ensures ImgUpTo(b, s, es, es, 0)
  {
  }

  lemma AllForwarded(b: Base, s: Snap, es: seq<Entry>, fs: seq<Entry>)
    requires ImgUpTo(b, s, es, fs, |es|)
    ensures ImgEntries(b, s, es, fs)
  {
  }

  lemma NextEntry(b: Base, s: Snap, es: seq<Entry>, fs: seq<Entry>, i: nat)
    requires ImgUpTo(b, s, es, fs, i) && i < |fs|
    ensures |es| == |fs| && fs[i] == es[i]
  {
  }

  lemma EntryDone(b: Base, s: Snap, es: seq<Entry>, fs: seq<Entry>, i: nat)
    requires ImgUpTo(b, s, es, fs, i) && i < |fs| && Img(b, s, fs[i].val, fs[i].val)
    ensures ImgUpTo(b, s, es, fs, i + 1)
  {
    hide Img;
  }

  lemma EntryForwarded(b: Base, s: Snap, t: Snap, x: set<Ptr>, es: seq<Entry>, fs: seq<Entry>, i: nat, q: Ptr)
    requires Step(b, s, t, x) && ImgUpTo(b, s, es, fs, i) && i < |fs| && Img(b, t, fs[i].val, q)
    ensures ImgUpTo(b, t, es, fs[i := Entry(fs[i].key, q)], i + 1)
  {
    hide Step, Img;
    forall k | 0 <= k < i ensures Img(b, t, es[k].val, fs[k].val) {
      ImgKept(b, s, t, x, es[k].val, fs[k].val);
    }
  }

  lemma ImgNull(b: Base, s: Snap, p: Ptr)
    requires p == 0
    ensures Img(b, s, p, p)
  {
  }

  /** Whatever a pointer became, it is not in the nursery. */
  lemma ImgIsOld(b: Base, s: Snap, p: Ptr, q: Ptr)
    requires Inv(b, s) && Img(b, s, p, q) && q != 0
    ensures q in s.mem && s.mem[q].gen == 1 && s.mem[q].copy == 0 && !Moves(b, q)
  {
    if Moves(b, p) {
      CopyFacts(b, s, q);
    }
  }

  /** A copy whose pointers have all been replaced is a finished step. */
  lemma FinishCopy(b: Base, s0: Snap, s1: Snap, s2: Snap, a: Ptr, n: Ptr)
    requires Inv(b, s0) && Inv(b, s1) && Inv(b, s2)
    requires Step(b, s0, s1, {n}) && Step(b, s1, s2, {n})
    requires n !in s0.mem && n in s1.org && s1.org[n] == a && Img(b, s1, a, n) && n in s2.mem
    requires a in b.mem && ImgBody(b, s2, b.mem[a].body, s2.mem[n].body)
    ensures Step(b, s0, s2, {}) && Img(b, s2, a, n)
  {
    StepTrans(b, s0, s1, s2, {n}, {n}, {n});
    StepClose(b, s0, s2, {n}, n);
    assert {n} - {n} == {};
    ImgKept(b, s1, s2, {n}, a, n);
  }

  /** The walk along `prev` has finished everything but possibly the last context's
      enclosing scope `c`. */
  ghost predicate InChain(b: Base, s: Snap, t: Snap, last: Ptr, c: Ptr) {
    if last == 0 || last !in s.ctxs || s.ctxs[last].cid == b.cid then Step(b, s, t, {})
    else
      && Step(b, s, t, {last}) && last in t.ctxs && last in b.ctxs
      && ImgContext(b, t, b.ctxs[last], t.ctxs[last]) && b.ctxs[last].prev == c
  }

  lemma ChainStep(b: Base, s: Snap, t: Snap, u: Snap, last: Ptr, c: Ptr)
    requires Start(b) && Inv(b, s) && Inv(b, t) && Inv(b, u) && InChain(b, s, t, last, c)
    requires c != 0 && c in b.reach && c in b.ctxs && c in t.ctxs && c in u.ctxs && u.ctxs[c].cid == b.cid
    requires if t.ctxs[c].cid == b.cid then u == t
             else Step(b, t, u, {c}) && ImgContext(b, u, b.ctxs[c], u.ctxs[c])
    ensures InChain(b, s, u, c, b.ctxs[c].prev)
    ensures Step(b, t, u, {c}) && Todo(b, u) <= Todo(b, t)
    ensures u.ctxs[c].prev == b.ctxs[c].prev
  {
    assert u.ctxs[c].prev == b.ctxs[c].prev by { hide Step; }
    StepRefl(b, t);
    StepWiden(b, t, t, {}, {c});
    assert Step(b, t, u, {c});
    TodoShrinks(b, t, u, {c});
    if t.ctxs[c].cid == b.cid {
      ChainEnd(b, s, t, last, c);
      ChainVisited(b, s, t, c);
    } else {
      ChainNew(b, s, t, u, last, c);
    }
  }

  lemma ChainVisited(b: Base, s: Snap, t: Snap, c: Ptr)
    requires Start(b) && Inv(b, s) && Inv(b, t) && Step(b, s, t, {}) && c in t.ctxs && t.ctxs[c].cid == b.cid
    ensures InChain(b, s, t, c, b.ctxs[c].prev)
  {
    StepWiden(b, s, t, {}, {c});
  }

  lemma ChainNew(b: Base, s: Snap, t: Snap, u: Snap, last: Ptr, c: Ptr)
    requires Inv(b, s) && Inv(b, t) && Inv(b, u) && InChain(b, s, t, last, c)
    requires c != 0 && c in b.ctxs && c in t.ctxs && c in u.ctxs && u.ctxs[c].cid == b.cid && t.ctxs[c].cid != b.cid
    requires Step(b, t, u, {c}) && ImgContext(b, u, b.ctxs[c], u.ctxs[c])
    ensures InChain(b, s, u, c, b.ctxs[c].prev)
  {
    assert c in s.ctxs && s.ctxs[c].cid != b.cid by { hide Uids, Copies, Original, Stays; }
    hide Inv;
    assert Step(b, s, u, {c}) by {
      if last == 0 || last !in s.ctxs || s.ctxs[last].cid == b.cid {
        hide Step;
        StepTrans(b, s, t, u, {}, {c}, {c});
      } else {
        ChainClose(b, s, t, u, last, c);
      }
    }
    hide Step;
  }

  /** The context before `c` in the chain is left alone while `c` is visited. */
  lemma LastStays(b: Base, t: Snap, u: Snap, last: Ptr, c: Ptr)
    requires Step(b, t, u, {c}) && last in t.ctxs && t.ctxs[last].cid == b.cid && last != c
    ensures last in u.ctxs && u.ctxs[last] == t.ctxs[last]
  {
  }

  lemma ContextNoNode(b: Base, s: Snap, u: Snap, c: Ptr)
    requires Inv(b, s) && Inv(b, u) && c in s.ctxs
    ensures c !in s.mem && c !in u.org
  {
    hide Uids, Copies, Original, Stays, Visits;
  }

  lemma ChainClose(b: Base, s: Snap, t: Snap, u: Snap, last: Ptr, c: Ptr)
    requires Inv(b, s) && Inv(b, t) && Inv(b, u)
    requires Step(b, s, t, {last}) && last in s.ctxs && s.ctxs[last].cid != b.cid && last in t.ctxs && last in b.ctxs
    requires ImgContext(b, t, b.ctxs[last], t.ctxs[last]) && b.ctxs[last].prev == c
    requires c in t.ctxs && t.ctxs[c].cid != b.cid && c in u.ctxs && u.ctxs[c].cid == b.cid && Step(b, t, u, {c})
    ensures Step(b, s, u, {c})
  {
    hide Inv, Step, Img;
    LastStays(b, t, u, last, c);
    ContextNoNode(b, s, u, last);
    ImgContextKept(b, t, u, {c}, b.ctxs[last], t.ctxs[last]);
    hide ImgContext;
    StepTrans(b, s, t, u, {last}, {c}, {last, c});
    StepClose(b, s, u, {last, c}, last);
    assert {last, c} - {last} == {c};
  }

  lemma ChainEnd(b: Base, s: Snap, t: Snap, last: Ptr, c: Ptr)
    requires Inv(b, s) && Inv(b, t) && InChain(b, s, t, last, c) && Settled(b, t, c)
    ensures Step(b, s, t, {})
  {
    if !(last == 0 || last !in s.ctxs || s.ctxs[last].cid == b.cid) {
      StepClose(b, s, t, {last}, last);
      assert {last} - {last} == {};
    }
  }

  // ---------------------------------------------------------------------------
  // Roots

  /** A coroutine: its last value, the used part of its stack, and the contexts of
      its frames, that of the running function last. */
  datatype Coro = Coro(exitv: Ptr, stack: seq<Ptr>, frames: seq<Ptr>, cid: nat, wb: bool)

  /** Everything a collection starts from. */
  datatype Roots = Roots(coros: seq<Coro>, protos: seq<Ptr>, except: Ptr, loaded: Ptr, none: Ptr)

  ghost predicate WfCoro(mem: map<Ptr, Node>, ctxs: map<Ptr, Context>, live: set<Ptr>, c: Coro) {
    && IsObject(mem, live, c.exitv)
    && (forall i | 0 <= i < |c.stack| :: IsObject(mem, live, c.stack[i]))
    && (forall i | 0 <= i < |c.frames| :: IsContext(ctxs, live, c.frames[i]))
  }

  ghost predicate WfRoots(mem: map<Ptr, Node>, ctxs: map<Ptr, Context>, live: set<Ptr>, r: Roots) {
    && (forall k | 0 <= k < |r.coros| :: WfCoro(mem, ctxs, live, r.coros[k]))
    && (forall k | 0 <= k < |r.protos| :: IsObject(mem, live, r.protos[k]))
    && IsObject(mem, live, r.except) && IsObject(mem, live, r.loaded) && IsObject(mem, live, r.none)
  }

  ghost predicate AllSettled(b: Base, s: Snap, cs: seq<Ptr>) {
    forall i | 0 <= i < |cs| :: Settled(b, s, cs[i])
  }

  ghost predicate ImgCoro(b: Base, s: Snap, o: Coro, n: Coro) {
    && Img(b, s, o.exitv, n.exitv) && ImgSeq(b, s, o.stack, n.stack)
    && n.frames == o.frames && n.cid == b.cid && !n.wb
    && AllSettled(b, s, o.frames)
  }

  ghost predicate ImgCoros(b: Base, s: Snap, o: seq<Coro>, n: seq<Coro>, k: nat)
    requires k <= |o| == |n|
  {
    forall j | 0 <= j < k :: ImgCoro(b, s, o[j], n[j])
  }

  ghost predicate ImgRoots(b: Base, s: Snap, o: Roots, n: Roots) {
    && |o.coros| == |n.coros| && ImgCoros(b, s, o.coros, n.coros, |o.coros|)
    && ImgSeq(b, s, o.protos, n.protos)
    && Img(b, s, o.except, n.except) && Img(b, s, o.loaded, n.loaded) && Img(b, s, o.none, n.none)
  }

  lemma ImgSeqKept(b: Base, s: Snap, t: Snap, x: set<Ptr>, ps: seq<Ptr>, qs: seq<Ptr>)
    requires Step(b, s, t, x) && ImgSeq(b, s, ps, qs)
    ensures ImgSeq(b, t, ps, qs)
  {
    hide Step;
    forall i | 0 <= i < |ps| ensures Img(b, t, ps[i], qs[i]) {
      ImgKept(b, s, t, x, ps[i], qs[i]);
    }
  }

  lemma AllSettledKept(b: Base, s: Snap, t: Snap, x: set<Ptr>, cs: seq<Ptr>)
    requires Inv(b, s) && Inv(b, t) && Step(b, s, t, x) && AllSettled(b, s, cs)
    ensures AllSettled(b, t, cs)
  {
    hide Step, Inv;
    forall i | 0 <= i < |cs| ensures Settled(b, t, cs[i]) {
      SettledKept(b, s, t, x, cs[i]);
    }
  }

  lemma ImgCorosKept(b: Base, s: Snap, t: Snap, x: set<Ptr>, o: seq<Coro>, n: seq<Coro>, k: nat)
    requires k <= |o| == |n|
    requires Inv(b, s) && Inv(b, t) && Step(b, s, t, x) && ImgCoros(b, s, o, n, k)
    ensures ImgCoros(b, t, o, n, k)
  {
    hide Step, Inv;
    forall j | 0 <= j < k ensures ImgCoro(b, t, o[j], n[j]) {
      ImgKept(b, s, t, x, o[j].exitv, n[j].exitv);
      ImgSeqKept(b, s, t, x, o[j].stack, n[j].stack);
      AllSettledKept(b, s, t, x, o[j].frames);
    }
  }

  lemma ImgRootsKept(b: Base, s: Snap, t: Snap, x: set<Ptr>, o: Roots, n: Roots)
    requires Inv(b, s) && Inv(b, t) && Step(b, s, t, x) && ImgRoots(b, s, o, n)
    ensures ImgRoots(b, t, o, n)
  {
    hide Step, Inv;
    ImgCorosKept(b, s, t, x, o.coros, n.coros, |o.coros|);
    ImgSeqKept(b, s, t, x, o.protos, n.protos);
    ImgKept(b, s, t, x, o.except, n.except);
    ImgKept(b, s, t, x, o.loaded, n.loaded);
    ImgKept(b, s, t, x, o.none, n.none);
  }

  // ---------------------------------------------------------------------------
  // Nodes that stay

  /** The nodes that stay: those in `done` are finished, the others are as they were. */
  ghost predicate Remaining(b: Base, s: Snap, done: set<Ptr>) {
    forall a | a in b.mem && !Moves(b, a) ::
      a in s.mem && (if a in done then ImgBody(b, s, b.mem[a].body, s.mem[a].body) && !s.mem[a].wb else s.mem[a] == b.mem[a])
  }

  lemma RemainingKept(b: Base, s: Snap, t: Snap, done: set<Ptr>)
    requires Inv(b, s) && Inv(b, t) && Step(b, s, t, {}) && Remaining(b, s, done)
    ensures Remaining(b, t, done)
  {
    hide Inv, Step, ImgBody;
    forall a | a in b.mem && !Moves(b, a)
      ensures a in t.mem && (if a in done then ImgBody(b, t, b.mem[a].body, t.mem[a].body) && !t.mem[a].wb else t.mem[a] == b.mem[a])
    {
      StillThere(b, s, t, a);
      if a in done {
        ImgBodyKept(b, s, t, {}, b.mem[a].body, s.mem[a].body);
      }
    }
  }

  /** One more node that stays is finished. */
  lemma RemainingMore(b: Base, s: Snap, t: Snap, done: set<Ptr>, a: Ptr)
    requires Inv(b, s) && Inv(b, t) && Step(b, s, t, {a}) && Remaining(b, s, done)
    requires a in b.mem && a in t.mem && !Moves(b, a) && ImgBody(b, t, b.mem[a].body, t.mem[a].body) && !t.mem[a].wb
    ensures Remaining(b, t, done + {a})
  {
    hide Inv, ImgBody;
    forall m | m in b.mem && !Moves(b, m)
      ensures m in t.mem && (if m in done + {a} then ImgBody(b, t, b.mem[m].body, t.mem[m].body) && !t.mem[m].wb else t.mem[m] == b.mem[m])
    {
      if m != a && m in done {
        ImgBodyKept(b, s, t, {a}, b.mem[m].body, s.mem[m].body);
      }
    }
  }
}
