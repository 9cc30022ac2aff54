/** The slot tables of objects and contexts: a short list that becomes a hash table when
    it grows, deleted slots that keep their key, and the inline caches of instructions. */
module SlotTables {
  import opened PtHash

  const DEFAULT_SIZE := 4
  const TO_HASH_THRESHOLD := 6

  /** A list is a hash table in which every key is at home in the first slot. */
  function HashOf(isHash: bool, hash: nat -> nat): nat -> nat {
    if isHash then hash else k => 0
  }

  lemma ListHome(hash: nat -> nat, key: nat, size: nat)
    requires size > 0
    ensures Home(HashOf(false, hash)(key), size) == 0
  {
  }

  /** The value of a slot: null when there is none or it was deleted. */
  ghost function ValueIn(m: map<nat, nat>, k: nat): nat {
    if k in m then m[k] else 0
  }

  /** After writing `v` to the slot `k` (null deletes it).  A deleted slot may or may not
      be remembered as such; nobody can tell the difference by looking. */
  ghost predicate Wrote(m: map<nat, nat>, k: nat, v: nat, m': map<nat, nat>) {
    && (forall k' :: ValueIn(m', k') == if k' == k then v else ValueIn(m, k'))
    && m.Keys <= m'.Keys <= m.Keys + {k} && (v != 0 ==> k in m')
  }

  /** Hands out the ids of slot tables. */
  class State {
    var stuid: nat

    constructor ()
      ensures stuid == 0
    {
      stuid := 0;
    }

    method GenUid() returns (uid: nat)
      modifies this
      ensures uid == stuid == old(stuid) + 1
    {
      stuid := stuid + 1;
      return stuid;
    }
  }

  /** An instruction that names a slot: always the same key.  Its cache is a table id and
      the address of a slot, that is, a place in some array of slots. */
  class Instr {
    const key: nat
    var ccId: nat
    var ccTabl: array<Pair>
    var ccIdx: nat

    constructor (key: nat)
      ensures this.key == key && ccId == 0
    {
      this.key := key;
      ccId, ccTabl, ccIdx := 0, new Pair[0], 0;
    }

    method SetCache(uid: nat, tabl: array<Pair>, i: nat)
      modifies this
      ensures ccId == uid && ccTabl == tabl && ccIdx == i
    {
      ccId, ccTabl, ccIdx := uid, tabl, i;
    }
  }

  class SlotTable {
    const hash: nat -> nat
    var tabl: array<Pair>
    var isHash: bool
    var uid: nat
    var shared: bool
    var noCow: bool
    ghost var m: map<nat, nat>

    ghost predicate Valid()
      reads this`isHash, this`tabl, this`m, tabl
    {
      Table(HashOf(isHash, hash), tabl[..], m)
    }

    /** The id was handed out by `st`. */
    ghost predicate Issued(st: State)
      reads this, st
    {
      uid <= st.stuid
    }

    ghost function Value(k: nat): nat
      reads this
    {
      ValueIn(m, k)
    }

    /** As long as the table has its id, slots stay where they are. */
    twostate predicate Steady()
      reads this, tabl
    {
      tabl == old(tabl) && forall i | 0 <= i < tabl.Length && old(tabl[i].k) != 0 :: tabl[i].k == old(tabl[i].k)
    }

    twostate predicate Evolves(st: State)
      reads this, tabl, st
    {
      && shared == old(shared) && noCow == old(noCow)
      && if uid == old(uid) then Steady() && st.stuid == old(st.stuid)
         else fresh(tabl) && uid == st.stuid > old(st.stuid)
    }

    /** An empty table with room for at least `init` slots. */
    constructor (st: State, hash: nat -> nat, init: nat)
      modifies st
      ensures Valid() && fresh(tabl) && m == map[] && !shared && !noCow && this.hash == hash
      ensures uid == st.stuid == old(st.stuid) + 1
    {
      var size := if init < DEFAULT_SIZE then DEFAULT_SIZE else init;
      isHash := false;
      if size >= TO_HASH_THRESHOLD {
        size := 2 * size;
        isHash := true;
      }
      this.hash := hash;
      tabl := new Pair[size](i => Pair(0, 0));
      shared, noCow := false, false;
      m := map[];
      new;
      uid := st.GenUid();
      Cleared(HashOf(isHash, hash), tabl[..]);
    }

    /** The slot of `key`, or the unused slot its probing ends at, if there is one. */
    method Probe(key: nat) returns (found: bool, at: nat)
      requires Valid() && key != 0
      ensures found ==> at < tabl.Length && Probed(tabl[..], Home(HashOf(isHash, hash)(key), tabl.Length), at, key)
      ensures found ==> if tabl[at].k == 0 then key !in m else tabl[at].k == key && key in m && m[key] == tabl[at].v
      ensures !found ==> key !in m && Full(tabl[..]) && forall j | 0 <= j < tabl.Length :: tabl[j].k != 0 && tabl[j].k != key
    {
      hide Table;
      NonEmpty(HashOf(isHash, hash), tabl[..], m);
      ListHome(hash, key, tabl.Length);
      var tmp := if isHash then Home(hash(key), tabl.Length) else 0;
      var i := tmp;
      while i < tabl.Length
        invariant tmp <= i <= tabl.Length
        invariant forall j | tmp <= j < i :: tabl[j].k != 0 && tabl[j].k != key
      {
        if tabl[i].k == 0 || tabl[i].k == key {
          Met(HashOf(isHash, hash), tabl[..], m, key, i);
          return true, i;
        }
        i := i + 1;
      }
      i := 0;
      while i < tmp
        invariant 0 <= i <= tmp
        invariant forall j | tmp <= j < tabl.Length || 0 <= j < i :: tabl[j].k != 0 && tabl[j].k != key
      {
        if tabl[i].k == 0 || tabl[i].k == key {
          Met(HashOf(isHash, hash), tabl[..], m, key, i);
          return true, i;
        }
        i := i + 1;
      }
      NowhereElse(HashOf(isHash, hash), tabl[..], m, key);
      return false, 0;
    }

    /** Writes a slot where probing for its key ended. */
    method Put(at: nat, key: nat, v: nat)
      requires Valid() && key != 0 && at < tabl.Length && Probed(tabl[..], Home(HashOf(isHash, hash)(key), tabl.Length), at, key)
      requires tabl[at].k == 0 || tabl[at].k == key
      modifies tabl, this`m
      ensures Valid() && m == old(m)[key := v] && tabl[..] == old(tabl[..])[at := Pair(key, v)]
    {
      hide Table, Probed;
      ghost var c := tabl[..];
      if tabl[at].k == 0 {
        Inserted(HashOf(isHash, hash), c, m, key, v, at);
        tabl[at] := tabl[at].(k := key);
      } else {
        Overwritten(HashOf(isHash, hash), c, m, key, v, at);
      }
      tabl[at] := tabl[at].(v := v);
      m := m[key := v];
      assert tabl[..] == c[at := Pair(key, v)];
    }

    /** A slot, deleted or not, that is not in the table yet, when there is room. */
    method Rehash(key: nat, v: nat)
      requires Valid() && key != 0 && key !in m && |m| < tabl.Length
      modifies tabl, this`m
      ensures Valid() && m == old(m)[key := v] && |m| == |old(m)| + 1
    {
      hide Table, Full;
      var found, at := Probe(key);
      if !found {
        FullTable(HashOf(isHash, hash), tabl[..], m);
        assert false;
      } else {
        Put(at, key, v);
      }
    }

    // -------------------------------------------------------------------------
    // Growing

    /** Moves everything, deleted slots included, to a larger array under a new id. */
    method Resize(st: State, dsize: nat)
      requires Valid() && Issued(st) && dsize > tabl.Length
      modifies this, st
      ensures Valid() && Issued(st) && Evolves(st) && uid != old(uid) && m == old(m) && tabl.Length == dsize && !Full(tabl[..])
      ensures isHash == (old(isHash) || dsize >= TO_HASH_THRESHOLD)
      ensures !isHash ==> tabl[..] == old(tabl[..]) + Unused(dsize - old(tabl.Length))
    {
      hide Table, Full;
      var orig := tabl;
      ghost var h, c, all := HashOf(isHash, hash), tabl[..], m;
      NonEmpty(h, c, all);
      uid := st.GenUid();
      tabl := new Pair[dsize](i => Pair(0, 0));
      if !isHash && dsize >= TO_HASH_THRESHOLD {
        isHash := true;
      }
      if isHash {
        Refill(orig, h, c, all);
      } else {
        forall i | 0 <= i < orig.Length {
          tabl[i] := orig[i];
        }
        assert tabl[..] == c + Unused(dsize - |c|);
        ListGrown(hash, c, all, dsize - |c|);
        NotFull(c, dsize - |c|);
      }
    }

    method Refill(orig: array<Pair>, ghost h: nat -> nat, ghost c: seq<Pair>, ghost all: map<nat, nat>)
      requires Table(h, c, all) && orig[..] == c && isHash && orig != tabl && tabl.Length > orig.Length
      requires forall i | 0 <= i < tabl.Length :: tabl[i].k == 0
      modifies tabl, this`m
      ensures Valid() && m == all && !Full(tabl[..])
    {
      hide Table, Full;
      m := map[];
      Cleared(HashOf(isHash, hash), tabl[..]);
      NothingYet(h, c, all);
      var i := 0;
      while i < orig.Length
        invariant 0 <= i <= orig.Length && Valid() && orig[..] == c
        invariant m == Part(c, all, i) && |m| <= i
      {
        MoreMoved(h, c, all, i);
        if orig[i].k != 0 {
          Rehash(orig[i].k, orig[i].v);
        }
        i := i + 1;
      }
      AllMoved(h, c, all);
      if Full(tabl[..]) {
        FullTable(HashOf(isHash, hash), tabl[..], m);
      }
    }

    /** Doubles the table; says whether it became a hash table. */
    method Expand(st: State) returns (change: bool)
      requires Valid() && Issued(st)
      modifies this, st
      ensures Valid() && Issued(st) && Evolves(st) && uid != old(uid) && m == old(m) && tabl.Length == 2 * old(tabl.Length) && !Full(tabl[..])
      ensures change == (isHash && !old(isHash)) && (old(isHash) ==> isHash)
      ensures !isHash ==> tabl[..] == old(tabl[..]) + Unused(old(tabl.Length))
    {
      hide Table, Full;
      NonEmpty(HashOf(isHash, hash), tabl[..], m);
      var was := isHash;
      Resize(st, 2 * tabl.Length);
      change := isHash && !was;
    }

    method ExpandTo(st: State, to: nat)
      requires Valid() && Issued(st)
      modifies this, st
      ensures Valid() && Issued(st) && Evolves(st) && m == old(m)
      ensures if to <= old(tabl.Length) then uid == old(uid) else tabl.Length == 2 * to
    {
      hide Table, Full;
      if to <= tabl.Length {
        return;
      }
      Resize(st, 2 * to);
    }

    // -------------------------------------------------------------------------
    // Writing slots

    /** Writes a slot of a hash table, or deletes it (null).  Says where it was written. */
    method SetHashed(st: State, key: nat, v: nat) returns (stored: bool, at: nat)
      requires Valid() && Issued(st) && isHash && key != 0
      modifies this, tabl, st
      ensures Valid() && Issued(st) && Evolves(st) && Wrote(old(m), key, v, m)
      ensures stored == (v != 0 || key in old(m)) && (stored ==> at < tabl.Length && tabl[at] == Pair(key, v))
    {
      hide Table, Full, Probed;
      while true
        invariant Valid() && Issued(st) && Evolves(st) && isHash && m == old(m) && Untouched(old(uid) == uid)
        decreases Full(tabl[..])
      {
        var found, i := Probe(key);
        if found {
          if tabl[i].k == 0 && v == 0 {
            return false, 0;
          }
          Put(i, key, v);
          return true, i;
        }
        if v == 0 {
          return false, 0;
        }
        var change := Expand(st);
      }
    }

    twostate predicate Untouched(same: bool)
      reads this, tabl
    {
      same ==> tabl == old(tabl) && tabl[..] == old(tabl[..])
    }

    /** Writes a slot, or deletes it (null). */
    method SetSlot(st: State, key: nat, v: nat) returns (stored: bool, at: nat)
      requires Valid() && Issued(st) && key != 0
      modifies this, tabl, st
      ensures Valid() && Issued(st) && Evolves(st) && Wrote(old(m), key, v, m)
      ensures stored ==> at < tabl.Length && tabl[at] == Pair(key, v)
      ensures v != 0 || key in old(m) ==> stored
    {
      hide Table, Full, Probed;
      if isHash {
        stored, at := SetHashed(st, key, v);
        return;
      }
      var found, i := Probe(key);
      if found {
        if tabl[i].k == 0 && v == 0 {
          return false, 0;
        }
        Put(i, key, v);
        return true, i;
      }
      var osize := tabl.Length;
      ghost var c, m0 := tabl[..], m;
      var change := Expand(st);
      if change {
        stored, at := SetHashed(st, key, v);
        return;
      }
      Behind(hash, tabl[..], c, key);
      Put(osize, key, v);
      return true, osize;
    }

    /** Writes a slot only if the table has none under that key, not even a deleted one. */
    method SetEmptySlot(st: State, key: nat, v: nat) returns (ok: bool)
      requires Valid() && Issued(st) && key != 0
      modifies this, tabl, st
      ensures Valid() && Issued(st) && Evolves(st) && ok == (key !in old(m))
      ensures m == if ok then old(m)[key := v] else old(m)
    {
      hide Table, Full, Probed;
      while true
        invariant Valid() && Issued(st) && Evolves(st) && m == old(m) && Untouched(old(uid) == uid)
        decreases Full(tabl[..])
      {
        var found, i := Probe(key);
        if found {
          if tabl[i].k == 0 {
            Put(i, key, v);
            return true;
          }
          return false;
        }
        var osize, wasHash := tabl.Length, isHash;
        ghost var c := tabl[..];
        var change := Expand(st);
        if !wasHash && !change {
          Behind(hash, tabl[..], c, key);
          Put(osize, key, v);
          return true;
        }
      }
    }

    // -------------------------------------------------------------------------
    // Reading slots

    /** The place of a slot that is there and not deleted. */
    method GetSlot(key: nat) returns (found: bool, at: nat)
      requires Valid() && key != 0
      ensures found == (Value(key) != 0)
      ensures found ==> at < tabl.Length && tabl[at] == Pair(key, Value(key))
    {
      hide Table, Full, Probed;
      var there, i := Probe(key);
      if there && tabl[i].k != 0 && tabl[i].v != 0 {
        return true, i;
      }
      return false, 0;
    }

    /** Writes a slot that is there and not deleted. */
    method SetExistSlot(key: nat, v: nat) returns (ok: bool)
      requires Valid() && key != 0
      modifies tabl, this`m
      ensures Valid() && ok == (old(Value(key)) != 0) && m == (if ok then old(m)[key := v] else old(m)) && Steady()
    {
      hide Table;
      var found, at := GetSlot(key);
      if found {
        WriteAt(at, v);
      }
      return found;
    }

    /** Writes a slot whose place is known. */
    method WriteAt(at: nat, v: nat)
      requires Valid() && at < tabl.Length && tabl[at].k != 0
      modifies tabl, this`m
      ensures Valid() && tabl[at].k in old(m) && m == old(m)[tabl[at].k := v] && Steady() && tabl[at] == Pair(old(tabl[at].k), v)
    {
      hide Table;
      ghost var c := tabl[..];
      There(HashOf(isHash, hash), c, m, tabl[at].k, at);
      Overwritten(HashOf(isHash, hash), c, m, tabl[at].k, v, at);
      tabl[at] := tabl[at].(v := v);
      m := m[tabl[at].k := v];
      assert tabl[..] == c[at := Pair(c[at].k, v)];
    }

    // -------------------------------------------------------------------------
    // Copying and merging

    /** A table with the same slots, deleted ones included, under an id of its own. */
    constructor CopyState(st: State, from: SlotTable)
      requires from.Valid()
      modifies st
      ensures Valid() && Issued(st) && fresh(tabl) && m == from.m && tabl[..] == from.tabl[..] && isHash == from.isHash && hash == from.hash
      ensures !shared && !noCow && uid == st.stuid == old(st.stuid) + 1
    {
      hash, isHash, shared, noCow, m := from.hash, from.isHash, false, false, from.m;
      tabl := new Pair[from.tabl.Length](i requires 0 <= i < from.tabl.Length reads from, from.tabl => from.tabl[i]);
      new;
      uid := st.GenUid();
      assert tabl[..] == from.tabl[..];
    }

    /** Adds the slots of `from` to the table.  When overwriting, deleted slots delete;
        otherwise a slot that was ever there, deleted or not, is left alone. */
    method Merge(st: State, from: SlotTable, overwrite: bool)
      requires Valid() && Issued(st) && from.Valid() && from != this && from.tabl != tabl
      modifies this, tabl, st
      ensures Valid() && Issued(st) && from.Valid() && from.m == old(from.m)
      ensures overwrite ==> forall k :: Value(k) == if k in from.m then from.m[k] else old(Value(k))
      ensures !overwrite ==> forall k :: Value(k) == if k in old(m) then old(m)[k] else ValueIn(from.m, k)
      ensures fresh(tabl) && uid > old(st.stuid) && shared == old(shared) && noCow == old(noCow)
    {
      hide Table, Full;
      ghost var m0, m1, c, h := m, from.m, from.tabl[..], HashOf(from.isHash, from.hash);
      var cells := from.tabl;
      NonEmpty(h, c, m1);
      ExpandTo(st, tabl.Length + from.tabl.Length);
      MergeCells(st, cells, h, c, m1, overwrite);
    }

    method MergeCells(st: State, cells: array<Pair>, ghost h: nat -> nat, ghost c: seq<Pair>, ghost all: map<nat, nat>, overwrite: bool)
      requires Valid() && Issued(st) && Table(h, c, all) && cells[..] == c && cells != tabl
      modifies this, tabl, st
      ensures Valid() && Issued(st) && cells[..] == c && (tabl == old(tabl) || fresh(tabl))
      ensures if overwrite then Overlaid(old(m), all, m) else Underlaid(old(m), all, m)
      ensures uid >= old(uid) && shared == old(shared) && noCow == old(noCow)
    {
      hide Table, Full, Overlaid, Underlaid, Wrote, Evolves;
      NothingYet(h, c, all);
      NothingLaid(m);
      var i := 0;
      while i < cells.Length
        invariant 0 <= i <= cells.Length && Valid() && Issued(st) && cells[..] == c && (tabl == old(tabl) || fresh(tabl))
        invariant if overwrite then Overlaid(old(m), Part(c, all, i), m) else Underlaid(old(m), Part(c, all, i), m)
        invariant uid >= old(uid) && shared == old(shared) && noCow == old(noCow)
      {
        MoreMoved(h, c, all, i);
        if cells[i].k != 0 {
          MergeSlot(st, cells[i].k, cells[i].v, overwrite, old(m), Part(c, all, i));
        }
        i := i + 1;
      }
      AllMoved(h, c, all);
    }

    method MergeSlot(st: State, key: nat, v: nat, overwrite: bool, ghost m0: map<nat, nat>, ghost part: map<nat, nat>)
      requires Valid() && Issued(st) && key != 0 && key !in part
      requires if overwrite then Overlaid(m0, part, m) else Underlaid(m0, part, m)
      modifies this, tabl, st
      ensures Valid() && Issued(st) && (tabl == old(tabl) || fresh(tabl))
      ensures if overwrite then Overlaid(m0, part[key := v], m) else Underlaid(m0, part[key := v], m)
      ensures uid >= old(uid) && shared == old(shared) && noCow == old(noCow)
    {
      hide Table, Full, Overlaid, Underlaid, Wrote;
      if overwrite {
        var stored, at := SetSlot(st, key, v);
        OverlaidMore(m0, part, old(m), key, v, m);
      } else {
        var ok := SetEmptySlot(st, key, v);
        UnderlaidMore(m0, part, old(m), key, v);
      }
    }

    // -------------------------------------------------------------------------
    // Inline caches

    /** If the instruction's cache is for this table it names the slot of its key. */
    ghost predicate CacheOk(instr: Instr)
      reads this, tabl, instr
    {
      instr.ccId == uid ==> instr.ccTabl == tabl && instr.ccIdx < tabl.Length && tabl[instr.ccIdx].k == instr.key
    }

    /** The cached read does what the uncached one does. */
    method GetSlotCC(instr: Instr) returns (v: nat)
      requires Valid() && instr.key != 0 && CacheOk(instr)
      modifies instr
      ensures v == Value(instr.key) && CacheOk(instr) && (instr.ccId == uid || unchanged(instr))
      ensures v != 0 ==> instr.ccId == uid
    {
      hide Table;
      if instr.ccId == uid {
        There(HashOf(isHash, hash), tabl[..], m, instr.key, instr.ccIdx);
        return instr.ccTabl[instr.ccIdx].v;
      }
      var found, at := GetSlot(instr.key);
      if found {
        instr.SetCache(uid, tabl, at);
        return tabl[at].v;
      }
      return 0;
    }

    /** The cached write does what the uncached one does. */
    method SetSlotCC(st: State, instr: Instr, v: nat)
      requires Valid() && Issued(st) && instr.key != 0 && CacheOk(instr) && instr.ccId <= st.stuid
      modifies this, tabl, st, instr
      ensures Valid() && Issued(st) && Evolves(st) && Wrote(old(m), instr.key, v, m)
      ensures CacheOk(instr) && (instr.ccId == uid || unchanged(instr))
    {
      hide Table;
      if instr.ccId == uid {
        WriteAt(instr.ccIdx, v);
        return;
      }
      var stored, at := SetSlot(st, instr.key, v);
      if stored {
        instr.SetCache(uid, tabl, at);
      }
    }

    /** The cached write to a slot that is there. */
    method SetExistSlotCC(instr: Instr, v: nat) returns (ok: bool)
      requires Valid() && instr.key != 0 && CacheOk(instr)
      modifies tabl, this`m, instr
      ensures Valid() && ok == (old(Value(instr.key)) != 0) && m == (if ok then old(m)[instr.key := v] else old(m)) && Steady()
      ensures CacheOk(instr) && (instr.ccId == uid || unchanged(instr))
    {
      hide Table;
      var old' := GetSlotCC(instr);
      if old' == 0 {
        return false;
      }
      There(HashOf(isHash, hash), tabl[..], m, instr.key, instr.ccIdx);
      WriteAt(instr.ccIdx, v);
      return true;
    }
  }

  function Unused(n: nat): (r: seq<Pair>)
    ensures |r| == n
  {
    seq(n, i => Pair(0, 0))
  }

  ghost predicate Overlaid(m0: map<nat, nat>, part: map<nat, nat>, m: map<nat, nat>) {
    forall k :: ValueIn(m, k) == if k in part then part[k] else ValueIn(m0, k)
  }

  ghost predicate Underlaid(m0: map<nat, nat>, part: map<nat, nat>, m: map<nat, nat>) {
    && (forall k :: ValueIn(m, k) == if k in m0 then m0[k] else ValueIn(part, k))
    && m.Keys == m0.Keys + part.Keys
  }

  lemma OverlaidMore(m0: map<nat, nat>, part: map<nat, nat>, m1: map<nat, nat>, k: nat, v: nat, m2: map<nat, nat>)
    requires Overlaid(m0, part, m1) && Wrote(m1, k, v, m2)
    ensures Overlaid(m0, part[k := v], m2)
  {
  }

  lemma UnderlaidMore(m0: map<nat, nat>, part: map<nat, nat>, m1: map<nat, nat>, k: nat, v: nat)
    requires Underlaid(m0, part, m1) && k !in part
    ensures Underlaid(m0, part[k := v], if k in m1 then m1 else m1[k := v])
  {
  }

  lemma NothingLaid(m: map<nat, nat>)
    ensures Overlaid(m, map[], m) && Underlaid(m, map[], m)
  {
  }

  lemma NotFull(c: seq<Pair>, n: nat)
    requires n > 0
    ensures !Full(c + Unused(n))
  {
    var d := c + Unused(n);
    assert d[|c|].k == 0;
  }

  /** A longer list with the same slots at its front. */
  lemma ListGrown(hash: nat -> nat, c: seq<Pair>, m: map<nat, nat>, n: nat)
    requires Table(HashOf(false, hash), c, m)
    ensures Table(HashOf(false, hash), c + Unused(n), m)
  {
    var h, d := HashOf(false, hash), c + Unused(n);
    forall p | 0 <= p < |d| && d[p].k != 0 ensures Linked(h, d, p, |d|) {
      assert Linked(h, c, p, |c|);
      assert HomeOf(h, c, p) == 0 && HomeOf(h, d, p) == 0;
    }
    forall k | k in m ensures exists p :: At(d, p, k, m[k]) {
      var p :| At(c, p, k, m[k]);
      assert At(d, p, k, m[k]);
    }
  }

  /** A key that is nowhere in a full list belongs right behind it. */
  lemma Behind(hash: nat -> nat, d: seq<Pair>, c: seq<Pair>, key: nat)
    requires |c| > 0 && d == c + Unused(|c|) && forall j | 0 <= j < |c| :: c[j].k != 0 && c[j].k != key
    ensures Probed(d, Home(HashOf(false, hash)(key), |d|), |c|, key) && d[|c|].k == 0
  {
    ListHome(hash, key, |d|);
  }
}
