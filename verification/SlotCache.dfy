/** Any number of slot tables and of instructions with inline caches: in every state they
    can get into, a cached access does what the uncached one does. */
module SlotCache {
  import opened PtHash
  import opened SlotTables

  class World {
    const st: State
    const hash: nat -> nat
    ghost var tables: set<SlotTable>
    ghost var instrs: set<Instr>

    /** Ids and arrays belong to one table each, and every cache that is for some table
        names the slot of its instruction's key. */
    ghost predicate Valid()
      reads this, st, tables, instrs, set t | t in tables :: t.tabl
    {
      && (forall t | t in tables :: t.Valid() && t.Issued(st) && t.uid > 0)
      && (forall t, u | t in tables && u in tables && t != u :: t.uid != u.uid && t.tabl != u.tabl)
      && (forall i | i in instrs :: i.key != 0 && i.ccId <= st.stuid)
      && (forall t, i | t in tables && i in instrs :: t.CacheOk(i))
    }

    constructor (hash: nat -> nat)
      ensures Valid() && tables == {} && instrs == {} && fresh(st)
    {
      this.hash, tables, instrs := hash, {}, {};
      st := new State();
    }

    /** Everything but what the table `t` and the instruction `i` hold. */
    twostate predicate OthersKept(t: SlotTable)
      reads this, tables, set u | u in tables :: u.tabl
    {
      tables == old(tables) && forall u | u in old(tables) && u != t :: u.m == old(u.m) && u.uid == old(u.uid)
    }

    method NewTable(init: nat) returns (t: SlotTable)
      requires Valid()
      modifies this, st
      ensures Valid() && fresh(t) && tables == old(tables) + {t} && instrs == old(instrs) && t.m == map[]
      ensures forall u | u in old(tables) :: u.m == old(u.m)
    {
      hide Table, SlotTable.Valid;
      t := new SlotTable(st, hash, init);
      assert forall i | i in instrs :: i.ccId < t.uid;
      tables := tables + {t};
    }

    /** An instruction that will always name the slot `key`. */
    method NewInstr(key: nat) returns (i: Instr)
      requires Valid() && key != 0
      modifies this
      ensures Valid() && fresh(i) && i.key == key && tables == old(tables) && instrs == old(instrs) + {i}
    {
      hide Table;
      i := new Instr(key);
      instrs := instrs + {i};
    }

    /** A copy of a table, as made on a write to a shared one. */
    method Copy(from: SlotTable) returns (t: SlotTable)
      requires Valid() && from in tables
      modifies this, st
      ensures Valid() && fresh(t) && tables == old(tables) + {t} && instrs == old(instrs) && t.m == old(from.m)
      ensures forall u | u in old(tables) :: u.m == old(u.m)
    {
      hide Table, SlotTable.Valid;
      t := new SlotTable.CopyState(st, from);
      tables := tables + {t};
    }

    /** Reading a slot through an instruction. */
    method Get(t: SlotTable, i: Instr) returns (v: nat)
      requires Valid() && t in tables && i in instrs
      modifies i
      ensures Valid() && v == t.Value(i.key)
    {
      hide Table;
      v := t.GetSlotCC(i);
    }

    /** Writing a slot through an instruction. */
    method Set(t: SlotTable, i: Instr, v: nat)
      requires Valid() && t in tables && i in instrs
      modifies t, t.tabl, st, i
      ensures Valid() && OthersKept(t) && Wrote(old(t.m), i.key, v, t.m)
    {
      hide Table, Wrote;
      t.SetSlotCC(st, i, v);
    }

    /** Writing a slot that is there, through an instruction. */
    method SetExist(t: SlotTable, i: Instr, v: nat) returns (ok: bool)
      requires Valid() && t in tables && i in instrs
      modifies t, t.tabl, i
      ensures Valid() && OthersKept(t) && ok == (old(t.Value(i.key)) != 0) && t.m == if ok then old(t.m)[i.key := v] else old(t.m)
    {
      hide Table;
      ok := t.SetExistSlotCC(i, v);
    }

    /** Writing a slot without a cache. */
    method SetPlain(t: SlotTable, key: nat, v: nat)
      requires Valid() && t in tables && key != 0
      modifies t, t.tabl, st
      ensures Valid() && OthersKept(t) && Wrote(old(t.m), key, v, t.m)
    {
      hide Table, Wrote;
      var stored, at := t.SetSlot(st, key, v);
    }

    method Grow(t: SlotTable, to: nat)
      requires Valid() && t in tables
      modifies t, st
      ensures Valid() && OthersKept(t) && t.m == old(t.m)
    {
      hide Table;
      t.ExpandTo(st, to);
    }

    method Merge(t: SlotTable, from: SlotTable, overwrite: bool)
      requires Valid() && t in tables && from in tables && from != t
      modifies t, t.tabl, st
      ensures Valid() && OthersKept(t)
      ensures overwrite ==> forall k :: t.Value(k) == if k in from.m then from.m[k] else old(t.Value(k))
      ensures !overwrite ==> forall k :: t.Value(k) == if k in old(t.m) then old(t.m)[k] else ValueIn(from.m, k)
    {
      hide Table;
      t.Merge(st, from, overwrite);
    }
  }
}
