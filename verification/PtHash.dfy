/** The open-addressing hash table for pointers: linear probing from a key's home slot,
    doubling when full, and removal that shifts later entries back. */
module PtHash {

  /** Key 0 is the null pointer: an unused slot. */
  datatype Pair = Pair(k: nat, v: nat)

  /** Bitwise and. */
  function And(a: nat, b: nat): (r: nat)
    ensures r <= b && r <= a
    decreases b
  {
    if b == 0 then 0 else 2 * And(a / 2, b / 2) + (if a % 2 == 1 && b % 2 == 1 then 1 else 0)
  }

  /** The slot a hash value starts probing at in a table of `size` slots. */
  function Home(hash: nat, size: nat): (r: nat)
    requires size > 0
    ensures r < size
  {
    And(hash, size - 1)
  }

  /** Going round from `from`, is `j` met before `to`? */
  predicate Between(from: nat, j: nat, to: nat) {
    if from <= to then from <= j < to else j >= from || j < to
  }

  // ---------------------------------------------------------------------------
  // What the slots mean

  ghost function HomeOf(h: nat -> nat, c: seq<Pair>, i: nat): (r: nat)
    requires i < |c|
    ensures r < |c|
  {
    Home(h(c[i].k), |c|)
  }

  ghost predicate Distinct(c: seq<Pair>) {
    forall i, j | 0 <= i < j < |c| && c[i].k != 0 :: c[i].k != c[j].k
  }

  /** Probing for an entry never meets an unused slot before it, `gap` perhaps excepted. */
  ghost predicate Linked(h: nat -> nat, c: seq<Pair>, i: nat, gap: nat)
    requires i < |c|
  {
    forall j | 0 <= j < |c| && j != gap && Between(HomeOf(h, c, i), j, i) :: c[j].k != 0
  }

  ghost predicate NoHoleBut(h: nat -> nat, c: seq<Pair>, gap: nat) {
    forall i | 0 <= i < |c| && c[i].k != 0 :: Linked(h, c, i, gap)
  }

  ghost predicate NoHole(h: nat -> nat, c: seq<Pair>) {
    NoHoleBut(h, c, |c|)
  }

  ghost predicate At(c: seq<Pair>, i: nat, k: nat, v: nat) {
    i < |c| && c[i] == Pair(k, v)
  }

  /** The table holds exactly the bindings of `m`. */
  ghost predicate Holds(c: seq<Pair>, m: map<nat, nat>) {
    && (forall i | 0 <= i < |c| && c[i].k != 0 :: c[i].k in m && m[c[i].k] == c[i].v)
    && (forall k | k in m :: k != 0 && exists i :: At(c, i, k, m[k]))
  }

  ghost predicate Table(h: nat -> nat, c: seq<Pair>, m: map<nat, nat>) {
    |c| > 0 && Distinct(c) && NoHole(h, c) && Holds(c, m)
  }

  ghost predicate Full(c: seq<Pair>) {
    forall i | 0 <= i < |c| :: c[i].k != 0
  }

  /** Probing from `home` has met nothing but other keys before `i`. */
  ghost predicate Probed(c: seq<Pair>, home: nat, i: nat, key: nat) {
    forall j | 0 <= j < |c| && Between(home, j, i) :: c[j].k != 0 && c[j].k != key
  }

  lemma Located(h: nat -> nat, c: seq<Pair>, m: map<nat, nat>, key: nat) returns (p: nat)
    requires Table(h, c, m) && key in m
    ensures At(c, p, key, m[key]) && key != 0 && Linked(h, c, p, |c|)
  {
    p :| At(c, p, key, m[key]);
  }

  /** Where probing for a key meets an unused slot the key is not in the table. */
  lemma NotThere(h: nat -> nat, c: seq<Pair>, m: map<nat, nat>, key: nat, i: nat)
    requires Table(h, c, m) && key != 0 && i < |c|
    requires Probed(c, Home(h(key), |c|), i, key) && c[i].k == 0
    ensures key !in m
  {
    if key in m {
      var p := Located(h, c, m, key);
    }
  }

  /** Nor if all other keys have been met. */
  lemma NowhereElse(h: nat -> nat, c: seq<Pair>, m: map<nat, nat>, key: nat)
    requires Table(h, c, m) && key != 0 && forall j | 0 <= j < |c| :: c[j].k != 0 && c[j].k != key
    ensures key !in m && Full(c)
  {
  }

  lemma There(h: nat -> nat, c: seq<Pair>, m: map<nat, nat>, key: nat, i: nat)
    requires Table(h, c, m) && key != 0 && i < |c| && c[i].k == key
    ensures key in m && m[key] == c[i].v
  {
  }

  /** A new key goes where probing for it met an unused slot. */
  lemma Inserted(h: nat -> nat, c: seq<Pair>, m: map<nat, nat>, key: nat, v: nat, i: nat)
    requires Table(h, c, m) && key != 0 && i < |c|
    requires Probed(c, Home(h(key), |c|), i, key) && c[i].k == 0
    ensures Table(h, c[i := Pair(key, v)], m[key := v]) && key !in m
  {
    NotThere(h, c, m, key, i);
    var d, m' := c[i := Pair(key, v)], m[key := v];
    forall p | 0 <= p < |d| && d[p].k != 0 ensures Linked(h, d, p, |d|) {
      if p != i {
        assert Linked(h, c, p, |c|);
      }
    }
    forall k | k in m' ensures exists p :: At(d, p, k, m'[k]) {
      if k == key {
        assert At(d, i, key, v);
      } else {
        var p :| At(c, p, k, m[k]);
        assert At(d, p, k, m[k]);
      }
    }
  }

  /** A key that is there gets another value. */
  lemma Overwritten(h: nat -> nat, c: seq<Pair>, m: map<nat, nat>, key: nat, v: nat, i: nat)
    requires Table(h, c, m) && key != 0 && i < |c| && c[i].k == key
    ensures Table(h, c[i := Pair(key, v)], m[key := v])
  {
    var d, m' := c[i := Pair(key, v)], m[key := v];
    forall p | 0 <= p < |d| && d[p].k != 0 ensures Linked(h, d, p, |d|) {
      assert Linked(h, c, p, |c|);
    }
    forall k | k in m' ensures exists p :: At(d, p, k, m'[k]) {
      if k == key {
        assert At(d, i, key, v);
      } else {
        var p :| At(c, p, k, m[k]);
        assert At(d, p, k, m[k]);
      }
    }
  }

  ghost function Keys(c: seq<Pair>): set<nat> {
    set i | 0 <= i < |c| && c[i].k != 0 :: c[i].k
  }

  lemma {:induction false} FullCount(c: seq<Pair>)
    requires Distinct(c) && Full(c)
    ensures |Keys(c)| == |c|
  {
    if c != [] {
      var n := |c| - 1;
      var front := c[..n];
      FullCount(front);
      assert Keys(c) == Keys(front) + {c[n].k};
      assert c[n].k !in Keys(front);
    }
  }

  /** A full table has as many bindings as slots. */
  lemma FullTable(h: nat -> nat, c: seq<Pair>, m: map<nat, nat>)
    requires Table(h, c, m) && Full(c)
    ensures |m| == |c|
  {
    FullCount(c);
    forall k | k in m ensures k in Keys(c) {
      var i :| At(c, i, k, m[k]);
    }
    assert m.Keys == Keys(c);
    assert |m.Keys| == |m|;
  }

  // ---------------------------------------------------------------------------
  // Removing

  /** How far an entry is from its home slot, going round. */
  ghost function Displacement(h: nat -> nat, c: seq<Pair>, i: nat): nat
    requires i < |c|
  {
    if c[i].k == 0 then 0
    else
      var home := HomeOf(h, c, i);
      if home <= i then i - home else i + |c| - home
  }

  ghost function Total(h: nat -> nat, c: seq<Pair>, n: nat): nat
    requires n <= |c|
  {
    if n == 0 then 0 else Total(h, c, n - 1) + Displacement(h, c, n - 1)
  }

  lemma {:induction false} TotalSame(h: nat -> nat, c: seq<Pair>, d: seq<Pair>, n: nat, i: nat)
    requires n <= |c| == |d| && i < |c| && forall j | 0 <= j < n && j != i :: c[j] == d[j]
    ensures Total(h, d, n) == Total(h, c, n) + (if i < n then Displacement(h, d, i) - Displacement(h, c, i) else 0)
  {
    if n > 0 {
      TotalSame(h, c, d, n - 1, i);
    }
  }

  /** The slots after an entry moved from `i` into the gap. */
  ghost function Shifted(c: seq<Pair>, gap: nat, i: nat): seq<Pair>
    requires gap < |c| && i < |c|
  {
    c[gap := c[i]][i := Pair(0, c[i].v)]
  }

  lemma ShiftLinks(h: nat -> nat, c: seq<Pair>, gap: nat, i: nat)
    requires gap < |c| && i < |c| && i != gap && c[gap].k == 0 && c[i].k != 0
    requires NoHoleBut(h, c, gap) && Between(HomeOf(h, c, i), gap, i)
    ensures NoHoleBut(h, Shifted(c, gap, i), i)
  {
    var d := Shifted(c, gap, i);
    forall p | 0 <= p < |d| && d[p].k != 0 ensures Linked(h, d, p, i) {
      assert Linked(h, c, if p == gap then i else p, gap);
    }
  }

  lemma ShiftNearer(h: nat -> nat, c: seq<Pair>, gap: nat, i: nat)
    requires gap < |c| && i < |c| && i != gap && c[gap].k == 0 && c[i].k != 0
    requires Between(HomeOf(h, c, i), gap, i)
    ensures Total(h, Shifted(c, gap, i), |c|) < Total(h, c, |c|)
  {
    var e := c[gap := c[i]];
    TotalSame(h, c, e, |c|, gap);
    TotalSame(h, e, Shifted(c, gap, i), |c|, i);
  }

  /** An entry whose probing passes the gap may be moved into it, and is nearer home. */
  lemma ShiftBack(h: nat -> nat, c: seq<Pair>, m: map<nat, nat>, gap: nat, i: nat)
    requires gap < |c| && i < |c| && i != gap && c[gap].k == 0 && c[i].k != 0
    requires Distinct(c) && NoHoleBut(h, c, gap) && Holds(c, m) && Between(HomeOf(h, c, i), gap, i)
    ensures var d := Shifted(c, gap, i);
            Distinct(d) && NoHoleBut(h, d, i) && Holds(d, m) && d[i].k == 0 && Total(h, d, |d|) < Total(h, c, |c|)
  {
    ShiftLinks(h, c, gap, i);
    ShiftNearer(h, c, gap, i);
    hide NoHoleBut, Between, Total, Distinct, Holds, Shifted;
    ShiftHolds(c, m, gap, i);
  }

  lemma ShiftHolds(c: seq<Pair>, m: map<nat, nat>, gap: nat, i: nat)
    requires gap < |c| && i < |c| && i != gap && c[gap].k == 0 && c[i].k != 0 && Distinct(c) && Holds(c, m)
    ensures var d := Shifted(c, gap, i); Distinct(d) && Holds(d, m) && d[i].k == 0
  {
    var d := Shifted(c, gap, i);
    forall k | k in m ensures exists p :: At(d, p, k, m[k]) {
      var p :| At(c, p, k, m[k]);
      assert At(d, if p == i then gap else p, k, m[k]);
    }
  }

  /** Nothing that has been met since the gap has probed past it. */
  ghost predicate Settled(h: nat -> nat, c: seq<Pair>, gap: nat, i: nat)
    requires gap < |c|
  {
    forall j | 0 <= j < |c| && j != gap && Between(gap, j, i) :: c[j].k != 0 && !Between(HomeOf(h, c, j), gap, j)
  }

  /** The next unused slot after the gap ends the search: the gap may stay. */
  lemma StopAtHole(h: nat -> nat, c: seq<Pair>, gap: nat, i: nat)
    requires gap < |c| && i < |c| && i != gap && c[gap].k == 0 && c[i].k == 0
    requires NoHoleBut(h, c, gap) && Settled(h, c, gap, i)
    ensures NoHole(h, c)
  {
    forall p | 0 <= p < |c| && c[p].k != 0 ensures Linked(h, c, p, |c|) {
      assert Linked(h, c, p, gap);
      Round(HomeOf(h, c, p), gap, p, i);
    }
  }

  /** Going round past `gap` to `p`, `i` is met if it is not met after `p`. */
  lemma Round(from: nat, gap: nat, p: nat, i: nat)
    requires p != i && i != gap
    ensures Between(from, gap, p) && !Between(gap, p, i) ==> Between(from, i, p)
  {
  }

  /** Of two slots one is met first. */
  lemma OneFirst(from: nat, p: nat, i: nat)
    ensures Between(from, p, i) || p == i || Between(from, i, p)
  {
  }

  /** So does having gone all the way round. */
  lemma StopAfterRound(h: nat -> nat, c: seq<Pair>, gap: nat)
    requires gap < |c| && NoHoleBut(h, c, gap)
    requires forall j | 0 <= j < |c| && j != gap :: c[j].k != 0 && !Between(HomeOf(h, c, j), gap, j)
    ensures NoHole(h, c)
  {
    forall p | 0 <= p < |c| && c[p].k != 0 ensures Linked(h, c, p, |c|) {
      assert Linked(h, c, p, gap);
    }
  }

  /** Emptying a slot leaves a gap there. */
  lemma Emptied(h: nat -> nat, c: seq<Pair>, m: map<nat, nat>, i: nat)
    requires Table(h, c, m) && i < |c| && c[i].k != 0
    ensures var d := c[i := c[i].(k := 0)];
            Distinct(d) && NoHoleBut(h, d, i) && Holds(d, m - {c[i].k}) && d[i].k == 0
  {
    var d := c[i := c[i].(k := 0)];
    forall p | 0 <= p < |d| && d[p].k != 0 ensures Linked(h, d, p, i) {
      assert Linked(h, c, p, |c|);
    }
    forall k | k in m - {c[i].k} ensures exists p :: At(d, p, k, m[k]) {
      var p :| At(c, p, k, m[k]);
      assert At(d, p, k, m[k]);
    }
  }

  class Hash {
    const hash: nat -> nat
    var table: array<Pair>
    var ecount: int
    ghost var m: map<nat, nat>

    ghost predicate Valid()
      reads this, table
    {
      Table(hash, table[..], m)
    }

    /** The count is right. */
    ghost predicate Counted()
      reads this
    {
      ecount == |m|
    }

    constructor (hash: nat -> nat)
      ensures Valid() && Counted() && m == map[] && fresh(table)
    {
      this.hash := hash;
      table := new Pair[8](i => Pair(0, 0));
      ecount, m := 0, map[];
    }

    /** The slot of `key`, or the unused slot its probing ends at, if there is one. */
    method FindC(key: nat) returns (found: bool, at: nat)
      requires Valid()
      ensures found ==> key != 0 && at < table.Length && Probed(table[..], Home(hash(key), table.Length), at, key)
      ensures found ==> if table[at].k == 0 then key !in m else table[at].k == key && key in m && m[key] == table[at].v
      ensures !found ==> key !in m && (key != 0 ==> Full(table[..]))
    {
      hide Table;
      if key == 0 {
        NoNull(hash, table[..], m);
        return false, 0;
      }
      NonEmpty(hash, table[..], m);
      var tmp := Home(hash(key), table.Length);
      var i := tmp;
      while i < table.Length
        invariant tmp <= i <= table.Length
        invariant forall j | tmp <= j < i :: table[j].k != 0 && table[j].k != key
      {
        if table[i].k == 0 || table[i].k == key {
          Met(hash, table[..], m, key, i);
          return true, i;
        }
        i := i + 1;
      }
      i := 0;
      while i < tmp
        invariant 0 <= i <= tmp
        invariant forall j | tmp <= j < table.Length || 0 <= j < i :: table[j].k != 0 && table[j].k != key
      {
        if table[i].k == 0 || table[i].k == key {
          Met(hash, table[..], m, key, i);
          return true, i;
        }
        i := i + 1;
      }
      NowhereElse(hash, table[..], m, key);
      return false, 0;
    }

    /** The value bound to `key`, null when there is none. */
    method Find(key: nat) returns (v: nat)
      requires Valid()
      ensures v == if key in m then m[key] else 0
    {
      hide Table;
      var found, at := FindC(key);
      if found && table[at].k != 0 {
        return table[at].v;
      }
      return 0;
    }

    /** Binds `key`.  The count goes up even when the key was bound before. */
    method Insert(key: nat, v: nat)
      requires Valid()
      modifies this, table
      ensures Valid() && (table == old(table) || fresh(table))
      ensures key == 0 ==> m == old(m) && ecount == old(ecount)
      ensures key != 0 ==> m == old(m)[key := v] && ecount == old(ecount) + 1
    {
      hide Table, Full;
      if key == 0 {
        return;
      }
      var done := false;
      while !done
        invariant Valid() && (table == old(table) || fresh(table))
        invariant m == (if done then old(m)[key := v] else old(m)) && ecount == old(ecount) + (if done then 1 else 0)
        decreases !done, Full(table[..])
      {
        var found, at := FindC(key);
        if found {
          Put(at, key, v);
          ecount := ecount + 1;
          done := true;
        } else {
          Expand();
        }
      }
    }

    /** Writes a binding where probing for its key ended. */
    method Put(at: nat, key: nat, v: nat)
      requires Valid() && key != 0 && at < table.Length && Probed(table[..], Home(hash(key), table.Length), at, key)
      requires table[at].k == 0 || table[at].k == key
      modifies table, this`m
      ensures Valid() && m == old(m)[key := v]
    {
      hide Table, Probed;
      ghost var c := table[..];
      if table[at].k == 0 {
        Inserted(hash, c, m, key, v, at);
        table[at] := table[at].(k := key);
      } else {
        Overwritten(hash, c, m, key, v, at);
      }
      table[at] := table[at].(v := v);
      m := m[key := v];
      assert table[..] == c[at := Pair(key, v)];
    }

    /** Binds `key` only if it is not bound yet. */
    method InsertEmpty(key: nat, v: nat) returns (ok: bool)
      requires Valid()
      modifies this, table
      ensures Valid() && (table == old(table) || fresh(table)) && ok == (key != 0 && key !in old(m))
      ensures m == (if ok then old(m)[key := v] else old(m)) && ecount == old(ecount) + (if ok then 1 else 0)
      ensures old(Counted()) ==> Counted()
    {
      hide Table, Full;
      if key == 0 {
        return false;
      }
      while true
        invariant Valid() && m == old(m) && ecount == old(ecount) && (table == old(table) || fresh(table))
        decreases Full(table[..])
      {
        var found, at := FindC(key);
        if found {
          if table[at].k == 0 {
            Put(at, key, v);
            ecount := ecount + 1;
            return true;
          }
          return false;
        }
        Expand();
      }
    }

    /** Moves all bindings to a table twice the size. */
    method Expand()
      requires Valid()
      modifies this
      ensures Valid() && fresh(table) && table.Length == 2 * old(table).Length && m == old(m) && ecount == old(ecount)
      ensures !Full(table[..])
    {
      hide Table, Full;
      var orig := table;
      ghost var c, all := table[..], m;
      NonEmpty(hash, c, all);
      table, m := new Pair[2 * orig.Length](i => Pair(0, 0)), map[];
      Cleared(hash, table[..]);
      NothingYet(hash, c, all);
      var i := 0;
      while i < orig.Length
        invariant 0 <= i <= orig.Length && Valid() && fresh(table) && table.Length == 2 * orig.Length && orig[..] == c
        invariant ecount == old(ecount) && m == Part(c, all, i) && |m| <= i
      {
        MoreMoved(hash, c, all, i);
        if orig[i].k != 0 {
          Rehash(orig[i].k, orig[i].v);
        }
        i := i + 1;
      }
      AllMoved(hash, c, all);
      if Full(table[..]) {
        FullTable(hash, table[..], m);
      }
    }

    /** A binding that is not in the table yet, when there is room for it. */
    method Rehash(key: nat, v: nat)
      requires Valid() && key != 0 && key !in m && |m| < table.Length
      modifies table, this`m
      ensures Valid() && m == old(m)[key := v] && |m| == |old(m)| + 1
    {
      hide Table, Full;
      var found, at := FindC(key);
      if !found {
        FullTable(hash, table[..], m);
        assert false;
      } else {
        Put(at, key, v);
      }
    }

    // -------------------------------------------------------------------------
    // Removing

    /** Looks round from the gap for an entry that has probed past it, up to the next
        unused slot. */
    method FindFiller(gap: nat) returns (fill: bool, at: nat)
      requires gap < table.Length && table[gap].k == 0 && NoHoleBut(hash, table[..], gap)
      ensures fill ==> at < table.Length && at != gap && table[at].k != 0 && Between(HomeOf(hash, table[..], at), gap, at)
      ensures !fill ==> NoHole(hash, table[..])
    {
      hide NoHoleBut;
      ghost var c := table[..];
      var i := gap + 1;
      while i < table.Length
        invariant gap < i <= table.Length
        invariant forall j | gap < j < i :: c[j].k != 0 && !Between(HomeOf(hash, c, j), gap, j)
      {
        if table[i].k == 0 {
          StopAtHole(hash, c, gap, i);
          return false, 0;
        }
        var home := Home(hash(table[i].k), table.Length);
        if home <= gap || home > i {
          return true, i;
        }
        i := i + 1;
      }
      i := 0;
      while i < gap
        invariant 0 <= i <= gap
        invariant forall j | gap < j < table.Length || 0 <= j < i :: c[j].k != 0 && !Between(HomeOf(hash, c, j), gap, j)
      {
        if table[i].k == 0 {
          StopAtHole(hash, c, gap, i);
          return false, 0;
        }
        var home := Home(hash(table[i].k), table.Length);
        if home > i && home <= gap {
          return true, i;
        }
        i := i + 1;
      }
      StopAfterRound(hash, c, gap);
      return false, 0;
    }

    /** Unbinds `key` and closes the gap it leaves, even when the table is full. */
    method Remove(key: nat) returns (ok: bool)
      requires Valid()
      modifies this`m, this`ecount, table
      ensures Valid() && ok == (key in old(m)) && m == old(m) - {key} && ecount == old(ecount) - (if ok then 1 else 0)
      ensures old(Counted()) ==> Counted()
    {
      hide Table;
      var found, at := FindC(key);
      if !found || table[at].k == 0 {
        assert m - {key} == m;
        return false;
      }
      Emptied(hash, table[..], m, at);
      ghost var c := table[..];
      table[at] := table[at].(k := 0);
      assert table[..] == c[at := c[at].(k := 0)];
      m := m - {key};
      CloseGap(at);
      ecount := ecount - 1;
      return true;
    }

    /** Shifts entries back until the gap is where nothing probes past it. */
    method CloseGap(gap0: nat)
      requires gap0 < table.Length && table[gap0].k == 0
      requires Distinct(table[..]) && NoHoleBut(hash, table[..], gap0) && Holds(table[..], m)
      modifies table
      ensures Valid()
    {
      hide NoHoleBut, Holds, Distinct, Between, HomeOf;
      var gap: nat := gap0;
      while true
        invariant gap < table.Length && table[gap].k == 0
        invariant Distinct(table[..]) && NoHoleBut(hash, table[..], gap) && Holds(table[..], m)
        decreases Total(hash, table[..], table.Length)
      {
        var fill, i := FindFiller(gap);
        if !fill {
          return;
        }
        ghost var c := table[..];
        ShiftBack(hash, c, m, gap, i);
        table[gap] := table[i];
        table[i] := table[i].(k := 0);
        assert table[..] == Shifted(c, gap, i);
        gap := i;
      }
    }
  }

  /** Where probing for a key ends it is known whether the key is there. */
  lemma Met(h: nat -> nat, c: seq<Pair>, m: map<nat, nat>, key: nat, i: nat)
    requires Table(h, c, m) && key != 0 && i < |c| && Probed(c, Home(h(key), |c|), i, key)
    requires c[i].k == 0 || c[i].k == key
    ensures if c[i].k == 0 then key !in m else key in m && m[key] == c[i].v
  {
    if c[i].k == 0 {
      NotThere(h, c, m, key, i);
    } else {
      There(h, c, m, key, i);
    }
  }

  lemma NoNull(h: nat -> nat, c: seq<Pair>, m: map<nat, nat>)
    requires Table(h, c, m)
    ensures 0 !in m
  {
  }

  lemma NonEmpty(h: nat -> nat, c: seq<Pair>, m: map<nat, nat>)
    requires Table(h, c, m)
    ensures |c| > 0
  {
  }

  /** The bindings in the first `n` slots. */
  ghost function Part(c: seq<Pair>, m: map<nat, nat>, n: nat): map<nat, nat>
    requires n <= |c|
  {
    map k | k in m && exists i :: 0 <= i < n && c[i].k == k :: m[k]
  }

  lemma NothingYet(h: nat -> nat, c: seq<Pair>, m: map<nat, nat>)
    ensures Part(c, m, 0) == map[]
  {
  }

  lemma Cleared(h: nat -> nat, c: seq<Pair>)
    requires |c| > 0 && forall i | 0 <= i < |c| :: c[i].k == 0
    ensures Table(h, c, map[])
  {
  }

  lemma MoreMoved(h: nat -> nat, c: seq<Pair>, m: map<nat, nat>, i: nat)
    requires Table(h, c, m) && i < |c|
    ensures if c[i].k == 0 then Part(c, m, i + 1) == Part(c, m, i)
            else c[i].k !in Part(c, m, i) && Part(c, m, i + 1) == Part(c, m, i)[c[i].k := c[i].v]
  {
  }

  lemma AllMoved(h: nat -> nat, c: seq<Pair>, m: map<nat, nat>)
    requires Table(h, c, m)
    ensures Part(c, m, |c|) == m
  {
    forall k | k in m ensures exists i :: 0 <= i < |c| && c[i].k == k {
      var i :| At(c, i, k, m[k]);
    }
  }

  /** Counting goes wrong exactly when a key that is bound is bound again with `Insert`. */
  lemma InsertCounts(m: map<nat, nat>, ecount: int, key: nat, v: nat)
    requires key != 0 && ecount == |m|
    ensures ecount + 1 == |m[key := v]| <==> key !in m
  {
    if key in m {
      assert m[key := v].Keys == m.Keys;
    } else {
      assert m[key := v].Keys == m.Keys + {key};
    }
  }
}
