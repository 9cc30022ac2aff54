/** Objects and contexts with their slots, tables shared between clones until one of them
    is written to. */
module ObjectSlots {
  import opened PtHash
  import opened SlotTables

  class Object {
    var slots: SlotTable?

    constructor (slots: SlotTable?)
      ensures this.slots == slots
    {
      this.slots := slots;
    }
  }

  class Context {
    var slots: SlotTable?
    var obj: Object?

    constructor ()
      ensures slots == null && obj == null
    {
      slots, obj := null, null;
    }
  }

  class Heap {
    const st: State
    const hash: nat -> nat
    ghost var objs: set<Object>
    ghost var ctxs: set<Context>
    ghost var tables: set<SlotTable>

    ghost predicate TablesOk()
      reads this`tables, st, tables, set t | t in tables :: t.tabl
    {
      && (forall t | t in tables :: t.Valid() && t.Issued(st) && !(t.shared && t.noCow))
      && (forall t, u | t in tables && u in tables && t != u :: t.tabl != u.tabl)
    }

    /** Only a table marked as shared is the table of several objects. */
    ghost predicate ObjectsOk()
      reads this`objs, this`tables, objs, tables
    {
      && (forall o | o in objs && o.slots != null :: o.slots in tables)
      && (forall o, p | o in objs && p in objs && o != p && o.slots != null && o.slots == p.slots :: o.slots.shared)
    }

    /** The table of a context is shared with its object only, and never copied on write. */
    ghost predicate ContextsOk()
      reads this`objs, this`ctxs, this`tables, objs, ctxs, tables
    {
      && (forall c | c in ctxs && c.slots != null :: c.slots in tables && !c.slots.shared)
      && (forall c | c in ctxs && c.obj != null :: c.obj in objs && c.slots != null && c.obj.slots == c.slots && c.slots.noCow)
      && (forall c, o | c in ctxs && o in objs && c.obj != o && c.slots != null :: o.slots != c.slots)
      && (forall c, d | c in ctxs && d in ctxs && c != d && c.slots != null && c.slots == d.slots :: c.obj != null && c.obj == d.obj)
    }

    ghost predicate Valid()
      reads this, st, objs, ctxs, tables, set t | t in tables :: t.tabl
    {
      TablesOk() && ObjectsOk() && ContextsOk()
    }

    /** What an object's slot `k` holds. */
    ghost function View(o: Object, k: nat): nat
      reads o, o.slots
    {
      if o.slots == null then 0 else o.slots.Value(k)
    }

    ghost function ContextView(c: Context, k: nat): nat
      reads c, c.slots
    {
      if c.slots == null then 0 else c.slots.Value(k)
    }

    constructor (hash: nat -> nat)
      ensures Valid() && objs == {} && ctxs == {} && tables == {} && fresh(st)
    {
      this.hash, objs, ctxs, tables := hash, {}, {}, {};
      st := new State();
    }

    method NewObject() returns (o: Object)
      requires Valid()
      modifies this`objs
      ensures Valid() && fresh(o) && objs == old(objs) + {o} && forall k :: View(o, k) == 0
    {
      hide Table;
      o := new Object(null);
      objs := objs + {o};
    }

    method NewContext() returns (c: Context)
      requires Valid()
      modifies this`ctxs
      ensures Valid() && fresh(c) && ctxs == old(ctxs) + {c} && forall k :: ContextView(c, k) == 0
    {
      hide Table;
      c := new Context();
      ctxs := ctxs + {c};
    }

    /** The objects in `os` and the contexts in `cs` notice nothing. */
    twostate predicate Unnoticed(os: set<Object>, cs: set<Context>)
      reads os, cs, set o | o in os && o.slots != null :: o.slots, set c | c in cs && c.slots != null :: c.slots
    {
      && (forall o, k | o in os :: View(o, k) == old(View(o, k)))
      && (forall c, k | c in cs :: ContextView(c, k) == old(ContextView(c, k)))
    }

    /** A table that is marked as shared is left alone. */
    twostate predicate SharedKept(ts: set<SlotTable>)
      reads ts, set t | t in ts :: t.tabl
    {
      forall t | t in ts && old(t.shared) :: t.shared && t.m == old(t.m) && t.tabl == old(t.tabl) && t.tabl[..] == old(t.tabl[..])
    }

    method CopyOf(from: SlotTable) returns (t: SlotTable)
      requires TablesOk() && from in tables
      modifies this`tables, st
      ensures TablesOk() && fresh(t) && fresh(t.tabl) && tables == old(tables) + {t} && t.m == from.m && !t.shared && !t.noCow
    {
      hide Table;
      t := new SlotTable.CopyState(st, from);
      tables := tables + {t};
    }

    /** A clone that shares the table, which is marked. */
    method CloneShared(o: Object) returns (r: Object)
      requires Valid() && o in objs && o.slots != null && !o.slots.noCow
      modifies this`objs, o.slots`shared
      ensures Valid() && fresh(r) && objs == old(objs) + {r} && r.slots == o.slots && o.slots.shared
    {
      hide Table, SlotTable.Valid;
      r := new Object(o.slots);
      r.slots.shared := true;
      objs := objs + {r};
    }

    /** A clone with a table of its own. */
    method CloneCopied(o: Object) returns (r: Object)
      requires Valid() && o in objs && o.slots != null
      modifies this`objs, this`tables, st
      ensures Valid() && fresh(r) && objs == old(objs) + {r} && old(tables) <= tables
      ensures r.slots != null && fresh(r.slots) && r.slots.m == o.slots.m
    {
      hide Table, SlotTable.Valid, TablesOk;
      var t := CopyOf(o.slots);
      r := new Object(t);
      objs := objs + {r};
      assert ObjectsOk() by { hide ContextsOk; }
      assert ContextsOk() by { hide ObjectsOk; }
      hide ObjectsOk, ContextsOk;
    }

    /** A clone: it has the same slots, and from now on both have slots of their own. */
    method Clone(o: Object) returns (r: Object)
      requires Valid() && o in objs
      modifies this`objs, this`tables, st, o.slots
      ensures Valid() && fresh(r) && objs == old(objs) + {r} && old(tables) <= tables
      ensures forall k :: View(r, k) == old(View(o, k))
      ensures Unnoticed(old(objs), old(ctxs)) && SharedKept(old(tables))
    {
      hide Valid;
      if o.slots == null {
        r := NewObject();
      } else if o.slots.noCow {
        r := CloneCopied(o);
      } else {
        r := CloneShared(o);
      }
    }

    /** The table an object may write to: its own, a private copy of a shared one, or a new
        one. */
    method CopyOnWrite(o: Object)
      requires Valid() && o in objs
      modifies this`tables, st, o
      ensures Valid() && o.slots != null && o.slots in tables && !o.slots.shared && old(tables) <= tables
      ensures if old(o.slots) != null && !old(o.slots.shared) then o.slots == old(o.slots) else fresh(o.slots) && fresh(o.slots.tabl)
      ensures forall k :: View(o, k) == old(View(o, k))
    {
      hide Table, SlotTable.Valid;
      if o.slots == null {
        NewSlots(o);
      } else if o.slots.shared {
        CopySlots(o);
      }
    }

    method NewSlots(o: Object)
      requires Valid() && o in objs && o.slots == null
      modifies this`tables, st, o
      ensures Valid() && o.slots != null && fresh(o.slots) && fresh(o.slots.tabl) && o.slots in tables && old(tables) <= tables
      ensures !o.slots.shared && o.slots.m == map[]
    {
      hide Table, SlotTable.Valid, TablesOk;
      var t := NewTable(0);
      o.slots := t;
    }

    method NewTable(init: nat) returns (t: SlotTable)
      requires TablesOk()
      modifies this`tables, st
      ensures TablesOk() && fresh(t) && fresh(t.tabl) && tables == old(tables) + {t} && t.m == map[] && !t.shared && !t.noCow
    {
      hide Table;
      t := new SlotTable(st, hash, init);
      tables := tables + {t};
    }

    method CopySlots(o: Object)
      requires Valid() && o in objs && o.slots != null && o.slots.shared
      modifies this`tables, st, o
      ensures Valid() && o.slots != null && fresh(o.slots) && fresh(o.slots.tabl) && o.slots in tables && old(tables) <= tables
      ensures !o.slots.shared && o.slots.m == old(o.slots.m)
    {
      hide Table, SlotTable.Valid, TablesOk;
      var t := CopyOf(o.slots);
      o.slots := t;
    }

    /** Writing to a table that is not shared. */
    method Write(t: SlotTable, key: nat, v: nat)
      requires Valid() && t in tables && !t.shared && key != 0
      modifies t, t.tabl, st
      ensures Valid() && Wrote(old(t.m), key, v, t.m) && t.shared == old(t.shared) && t.noCow == old(t.noCow)
      ensures t.tabl == old(t.tabl) || fresh(t.tabl)
    {
      hide Table, Wrote;
      var stored, at := t.SetSlot(st, key, v);
    }

    /** Writing a slot of an object: the object and a context it belongs to see it, and
        nobody else does; tables marked as shared stay as they are. */
    method SetSlot(o: Object, key: nat, v: nat)
      requires Valid() && o in objs && key != 0
      modifies this`tables, st, o, o.slots, if o.slots == null then {} else {o.slots.tabl}
      ensures Valid() && old(tables) <= tables
      ensures forall k :: View(o, k) == if k == key then v else old(View(o, k))
      ensures forall c, k | c in ctxs && c.obj == o :: ContextView(c, k) == if k == key then v else old(ContextView(c, k))
      ensures Unnoticed(objs - {o}, set c | c in ctxs && c.obj != o) && SharedKept(old(tables))
    {
      hide Table, SlotTable.Valid, TablesOk;
      CopyOnWrite(o);
      ArraysApart(o.slots);
      Write(o.slots, key, v);
    }

    lemma ArraysApart(t: SlotTable)
      requires TablesOk() && t in tables
      ensures forall u | u in tables && u != t :: u.tabl != t.tabl
    {
      hide Table, SlotTable.Valid;
    }

    // -------------------------------------------------------------------------
    // Contexts

    /** The table of a context, made on first use. */
    method InitSlots(c: Context)
      requires Valid() && c in ctxs
      modifies this`tables, st, c
      ensures Valid() && c.slots != null && c.slots in tables && !c.slots.shared && c.obj == old(c.obj) && old(tables) <= tables
      ensures if old(c.slots) != null then c.slots == old(c.slots) else fresh(c.slots) && fresh(c.slots.tabl) && c.slots.m == map[]
    {
      hide Table, SlotTable.Valid;
      if c.slots == null {
        NewContextSlots(c);
      }
    }

    method NewContextSlots(c: Context)
      requires Valid() && c in ctxs && c.slots == null
      modifies this`tables, st, c
      ensures Valid() && c.slots != null && fresh(c.slots) && fresh(c.slots.tabl) && c.slots in tables && old(tables) <= tables
      ensures !c.slots.shared && c.slots.m == map[] && c.obj == old(c.obj)
    {
      hide Table, SlotTable.Valid, TablesOk;
      var t := NewTable(0);
      c.slots := t;
    }

    /** Writing a variable: the context and its object see it, and nobody else does. */
    method ContextSet(c: Context, key: nat, v: nat)
      requires Valid() && c in ctxs && key != 0
      modifies this`tables, st, c, c.slots, if c.slots == null then {} else {c.slots.tabl}
      ensures Valid() && old(tables) <= tables && c.obj == old(c.obj)
      ensures forall k :: ContextView(c, k) == if k == key then v else old(ContextView(c, k))
      ensures c.obj != null ==> forall k :: View(c.obj, k) == if k == key then v else old(View(c.obj, k))
      ensures Unnoticed(objs - {c.obj}, set d | d in ctxs && d != c && (d.obj == null || d.obj != c.obj)) && SharedKept(old(tables))
    {
      hide Table, SlotTable.Valid, TablesOk;
      InitSlots(c);
      ArraysApart(c.slots);
      Write(c.slots, key, v);
    }

    /** The object of a context, made on first use: both have one table, and it is never
        to be shared with a clone. */
    method GetObject(c: Context) returns (o: Object)
      requires Valid() && c in ctxs
      modifies this`tables, this`objs, st, c, c.slots
      ensures Valid() && c.obj == o && o in objs && old(objs) <= objs && old(tables) <= tables
      ensures forall k :: View(o, k) == ContextView(c, k) == old(ContextView(c, k))
      ensures Unnoticed(old(objs), old(ctxs)) && SharedKept(old(tables))
    {
      hide Table, SlotTable.Valid, TablesOk;
      if c.obj != null {
        return c.obj;
      }
      InitSlots(c);
      o := Adopt(c);
    }

    method Adopt(c: Context) returns (o: Object)
      requires Valid() && c in ctxs && c.slots != null && c.obj == null
      modifies this`objs, c`obj, c.slots`noCow
      ensures Valid() && c.obj == o && fresh(o) && objs == old(objs) + {o} && o.slots == c.slots
    {
      hide Table, SlotTable.Valid, TablesOk;
      NeverCopied(c.slots);
      o := new Object(c.slots);
      c.obj := o;
      objs := objs + {o};
      assert ObjectsOk() by { hide ContextsOk; }
      assert ContextsOk() by { hide ObjectsOk; }
      hide ObjectsOk, ContextsOk;
    }

    method NeverCopied(t: SlotTable)
      requires TablesOk() && t in tables && !t.shared
      modifies t`noCow
      ensures TablesOk() && t.noCow
    {
      hide Table, SlotTable.Valid;
      t.noCow := true;
    }

    /** Making an object the scope of a context, as for the body of an object. */
    method SetObject(c: Context, o: Object?)
      requires Valid() && c in ctxs && (o != null ==> o in objs)
      modifies this`tables, st, c, o, if o == null then {} else {o.slots}
      ensures Valid() && c.obj == o && old(tables) <= tables
      ensures forall k :: ContextView(c, k) == if o == null then 0 else old(View(o, k))
      ensures Unnoticed(objs, ctxs - {c}) && SharedKept(old(tables))
    {
      hide Table, SlotTable.Valid, TablesOk;
      if o == null {
        c.obj, c.slots := null, null;
      } else {
        CopyOnWrite(o);
        Link(c, o);
      }
    }

    method Link(c: Context, o: Object)
      requires Valid() && c in ctxs && o in objs && o.slots != null && !o.slots.shared
      modifies c, o.slots`noCow
      ensures Valid() && c.obj == o && c.slots == o.slots
    {
      hide Table, SlotTable.Valid;
      c.obj, c.slots := o, o.slots;
      o.slots.noCow := true;
    }
  }
}
