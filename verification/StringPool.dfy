/** The string pool: every string is kept once, under a number that never changes. */
module StringPools {
  import opened Basics
  import opened PtHash

  const DEFAULT_SIZE := 32

  /** A slot of the hash table: a string of the list, and its number. */
  datatype Cell = Empty | Cell(str: string, id: nat)

  // ---------------------------------------------------------------------------
  // What the pool is for

  /** The first number of `s`; one past the last number if it has none. */
  function FirstOf(lst: seq<string>, s: string): (v: nat)
    ensures v <= |lst| && (v < |lst| ==> lst[v] == s) && (v < |lst| <==> s in lst)
    ensures forall u | 0 <= u < v :: lst[u] != s
  {
    if lst == [] then 0
    else
      var v := FirstOf(lst[..|lst| - 1], s);
      assert lst == lst[..|lst| - 1] + [lst[|lst| - 1]];
      if v < |lst| - 1 then v else if lst[|lst| - 1] == s then v else |lst|
  }

  /** The list after a string has been registered. */
  function Interned(lst: seq<string>, s: string): seq<string> {
    if s in lst then lst else lst + [s]
  }

  function InternAll(lst: seq<string>, reqs: seq<string>): (r: seq<string>)
    ensures lst <= r
    decreases |reqs|
  {
    if reqs == [] then lst else Interned(InternAll(lst, reqs[..|reqs| - 1]), reqs[|reqs| - 1])
  }

  /** The number the `i`th request is answered with. */
  function Answer(lst: seq<string>, reqs: seq<string>, i: nat): nat
    requires i < |reqs|
  {
    FirstOf(InternAll(lst, reqs[..i + 1]), reqs[i])
  }

  lemma FirstStays(lst: seq<string>, more: seq<string>, s: string)
    requires lst <= more && s in lst
    ensures FirstOf(more, s) == FirstOf(lst, s)
  {
    var v := FirstOf(lst, s);
    assert more[v] == s && forall u | 0 <= u < v :: more[u] != s;
  }

  lemma {:induction false} InternMore(lst: seq<string>, reqs: seq<string>, n: nat)
    requires n <= |reqs|
    ensures InternAll(lst, reqs[..n]) <= InternAll(lst, reqs)
    decreases |reqs|
  {
    if n < |reqs| {
      assert reqs[..|reqs| - 1][..n] == reqs[..n];
      InternMore(lst, reqs[..|reqs| - 1], n);
    } else {
      assert reqs[..n] == reqs;
    }
  }

  lemma {:induction false} InternDistinct(lst: seq<string>, reqs: seq<string>)
    requires NoDup(lst)
    ensures NoDup(InternAll(lst, reqs))
    decreases |reqs|
  {
    if reqs != [] {
      InternDistinct(lst, reqs[..|reqs| - 1]);
    }
  }

  /** Every answer stands for the string it was given for, for good. */
  lemma AnswerStands(lst: seq<string>, reqs: seq<string>, i: nat)
    requires i < |reqs|
    ensures var v, end := Answer(lst, reqs, i), InternAll(lst, reqs);
            v < |end| && end[v] == reqs[i] && FirstOf(end, reqs[i]) == v
  {
    var here := InternAll(lst, reqs[..i + 1]);
    assert reqs[..i + 1][..i] == reqs[..i];
    assert reqs[i] in here;
    InternMore(lst, reqs, i + 1);
    FirstStays(here, InternAll(lst, reqs), reqs[i]);
  }

  /** However many strings are registered: the numbers are 0, 1, 2, ... without a gap, each
      is the number of one string, and two requests get the same number exactly when they
      are for the same string. */
  lemma SameNumber(lst: seq<string>, reqs: seq<string>, i: nat, j: nat)
    requires i < |reqs| && j < |reqs| && NoDup(lst)
    ensures Answer(lst, reqs, i) == Answer(lst, reqs, j) <==> reqs[i] == reqs[j]
    ensures var end := InternAll(lst, reqs); NoDup(end) && forall v | 0 <= v < |end| :: FirstOf(end, end[v]) == v
  {
    AnswerStands(lst, reqs, i);
    AnswerStands(lst, reqs, j);
    InternDistinct(lst, reqs);
  }

  // ---------------------------------------------------------------------------
  // The hash table

  /** A C string ends at the first NUL. */
  function CStr(s: string): (r: string)
    ensures r <= s && '\0' !in r && ('\0' !in s ==> r == s)
  {
    if s == "" || s[0] == '\0' then "" else [s[0]] + CStr(s[1..])
  }

  function HomeFor(hash: string -> nat, s: string, size: nat): (r: nat)
    requires size > 0
    ensures r < size
  {
    Home(hash(CStr(s)), size)
  }

  /** Number `v` is in slot `pos[v]`, and probing for it meets only smaller numbers. */
  ghost predicate Placed(hash: string -> nat, c: seq<Cell>, lst: seq<string>, pos: seq<nat>) {
    && |c| > 0 && |pos| == |lst|
    && (forall v | 0 <= v < |lst| :: pos[v] < |c| && c[pos[v]] == Cell(lst[v], v))
    && (forall i | 0 <= i < |c| && c[i].Cell? :: c[i].id < |lst| && pos[c[i].id] == i)
    && (forall v, j | 0 <= v < |lst| && 0 <= j < |c| && Between(HomeFor(hash, lst[v], |c|), j, pos[v]) :: c[j].Cell? && c[j].id < v)
  }

  /** Probing for `s` has met nothing but other strings before `i`. */
  ghost predicate Passed(hash: string -> nat, c: seq<Cell>, s: string, i: nat) {
    |c| > 0 && forall j | 0 <= j < |c| && Between(HomeFor(hash, s, |c|), j, i) :: c[j].Cell? && c[j].str != s
  }

  ghost predicate AllUsed(c: seq<Cell>) {
    forall i | 0 <= i < |c| :: c[i].Cell?
  }

  /** Where probing meets the string, it meets its first number. */
  lemma Hit(hash: string -> nat, c: seq<Cell>, lst: seq<string>, pos: seq<nat>, s: string, i: nat)
    requires Placed(hash, c, lst, pos) && Passed(hash, c, s, i) && i < |c| && c[i].Cell? && c[i].str == s
    ensures s in lst && c[i].id == FirstOf(lst, s)
  {
    var v := c[i].id;
    forall u | 0 <= u < v ensures lst[u] != s {
      assert c[pos[u]] == Cell(lst[u], u);
      OneFirst(HomeFor(hash, s, |c|), pos[u], i);
    }
  }

  /** Where it meets an unused slot, there is no such string. */
  lemma Miss(hash: string -> nat, c: seq<Cell>, lst: seq<string>, pos: seq<nat>, s: string, i: nat)
    requires Placed(hash, c, lst, pos) && Passed(hash, c, s, i) && i < |c| && c[i].Empty?
    ensures s !in lst
  {
    forall u | 0 <= u < |lst| ensures lst[u] != s {
      assert c[pos[u]] == Cell(lst[u], u);
      OneFirst(HomeFor(hash, s, |c|), pos[u], i);
    }
  }

  /** Probing for a string in the table from where its hash beyond any NUL puts it: an
      unused slot is not met first. */
  ghost predicate FoundByLength(hash: string -> nat, c: seq<Cell>, lst: seq<string>, pos: seq<nat>, s: string, i: nat) {
    Placed(hash, c, lst, pos) && s in lst && i < |c|
    && (forall j | 0 <= j < |c| && Between(Home(hash(s), |c|), j, i) :: c[j].Cell? && c[j].str != s)
    ==> c[i].Cell?
  }

  /** The variants given a length hash all of it, and growing the table hashes up to the
      NUL: they are sure to find a string again exactly when there is none in it. */
  lemma GivenLength(s: string)
    ensures (forall hash: string -> nat, c, lst, pos, i :: FoundByLength(hash, c, lst, pos, s, i)) <==> '\0' !in s
  {
    hide Placed, Between, Home;
    if '\0' !in s {
      forall hash: string -> nat, c: seq<Cell>, lst, pos, i: nat | i < |c| && c[i].Empty? && s in lst && Placed(hash, c, lst, pos)
        ensures FoundByLength(hash, c, lst, pos, s, i)
      {
        AnySlots(hash, c, lst, pos);
        if Passed(hash, c, s, i) {
          Miss(hash, c, lst, pos, s, i);
        }
      }
    } else {
      LostByLength(s);
    }
  }

  lemma LostByLength(s: string)
    requires '\0' in s
    ensures exists hash: string -> nat, c, lst, pos, i :: !FoundByLength(hash, c, lst, pos, s, i)
  {
    var hash: string -> nat := t => if t == s then 1 else 0;
    var c := [Cell(s, 0), Empty];
    assert Home(1, 2) == 1 && Home(0, 2) == 0;
    assert CStr(s) != s && HomeFor(hash, s, 2) == 0;
    assert Placed(hash, c, [s], [0]);
    assert !FoundByLength(hash, c, [s], [0], s, 1);
  }

  lemma Nowhere(hash: string -> nat, c: seq<Cell>, lst: seq<string>, pos: seq<nat>, s: string)
    requires Placed(hash, c, lst, pos) && forall j | 0 <= j < |c| :: c[j].Cell? && c[j].str != s
    ensures s !in lst && AllUsed(c)
  {
    assert forall u | 0 <= u < |lst| :: c[pos[u]].str == lst[u];
  }

  /** A new number goes where probing met an unused slot. */
  lemma Filled(hash: string -> nat, c: seq<Cell>, lst: seq<string>, pos: seq<nat>, s: string, i: nat)
    requires Placed(hash, c, lst, pos) && i < |c| && c[i].Empty?
    requires forall j | 0 <= j < |c| && Between(HomeFor(hash, s, |c|), j, i) :: c[j].Cell?
    ensures Placed(hash, c[i := Cell(s, |lst|)], lst + [s], pos + [i])
  {
  }

  lemma {:induction false} SetSize(s: seq<int>)
    ensures |set x | x in s| <= |s|
    ensures (forall i, j | 0 <= i < j < |s| :: s[i] != s[j]) ==> |set x | x in s| == |s|
  {
    if s != [] {
      var t := s[..|s| - 1];
      SetSize(t);
      assert (set x | x in s) == (set x | x in t) + {s[|s| - 1]};
    }
  }

  ghost function Below(n: nat): (r: set<int>)
    ensures |r| == n && forall i :: i in r <==> 0 <= i < n
  {
    if n == 0 then {} else Below(n - 1) + {n - 1}
  }

  /** There are at most as many strings as slots, and as many only if the table is full. */
  lemma Crowd(hash: string -> nat, c: seq<Cell>, lst: seq<string>, pos: seq<nat>)
    requires Placed(hash, c, lst, pos)
    ensures |lst| <= |c| && (AllUsed(c) <==> |lst| == |c|)
  {
    var s: seq<int> := pos;
    var all, used := Below(|c|), set x | x in s;
    SetSize(s);
    assert forall v | 0 <= v < |lst| :: c[pos[v]].id == v;
    assert forall v, w | 0 <= v < w < |lst| :: s[v] != s[w];
    assert used <= all;
    SubsetSize(used, all);
    if AllUsed(c) {
      forall i | i in all ensures i in used {
        assert s[c[i].id] == i;
      }
      SubsetSize(all, used);
    } else {
      var i :| 0 <= i < |c| && c[i].Empty?;
      assert used <= all - {i};
      SubsetSize(used, all - {i});
    }
  }

  class StringPool {
    const hash: string -> nat
    var table: array<Cell>
    var lst: seq<string>
    ghost var pos: seq<nat>

    ghost predicate Valid()
      reads this`table, this`lst, this`pos, table
    {
      Placed(hash, table[..], lst, pos)
    }

    constructor (hash: string -> nat)
      ensures Valid() && fresh(table) && this.hash == hash && lst == []
    {
      this.hash := hash;
      table := new Cell[DEFAULT_SIZE](i => Empty);
      lst, pos := [], [];
    }

    /** A pool of the strings of a list, as it is read from a file. */
    constructor FromList(hash: string -> nat, list: seq<string>)
      requires |list| > 0
      ensures Valid() && fresh(table) && this.hash == hash && lst == list
    {
      this.hash := hash;
      table := new Cell[4 * |list|](i => Empty);
      lst, pos := [], [];
      new;
      Fill(list);
    }

    /** The slot of `s`, or the unused slot its probing ends at, if there is one. */
    method Probe(s: string) returns (found: bool, at: nat)
      requires Valid()
      ensures found ==> at < table.Length && if table[at].Empty? then s !in lst && Passed(hash, table[..], s, at)
                                             else s in lst && table[at].str == s && table[at].id == FirstOf(lst, s)
      ensures !found ==> s !in lst && AllUsed(table[..])
    {
      hide Placed, FirstOf;
      AnySlots(hash, table[..], lst, pos);
      var tmp := HomeFor(hash, s, table.Length);
      var i := tmp;
      while i < table.Length
        invariant tmp <= i <= table.Length
        invariant forall j | tmp <= j < i :: table[j].Cell? && table[j].str != s
      {
        if table[i].Empty? {
          Miss(hash, table[..], lst, pos, s, i);
          return true, i;
        } else if table[i].str == s {
          Hit(hash, table[..], lst, pos, s, i);
          return true, i;
        }
        i := i + 1;
      }
      i := 0;
      while i < tmp
        invariant 0 <= i <= tmp
        invariant forall j | tmp <= j < table.Length || 0 <= j < i :: table[j].Cell? && table[j].str != s
      {
        if table[i].Empty? {
          Miss(hash, table[..], lst, pos, s, i);
          return true, i;
        } else if table[i].str == s {
          Hit(hash, table[..], lst, pos, s, i);
          return true, i;
        }
        i := i + 1;
      }
      Nowhere(hash, table[..], lst, pos, s);
      return false, 0;
    }

    /** The first unused slot from the home of `s` on. */
    method ProbeUnused(s: string) returns (found: bool, at: nat)
      requires Valid()
      ensures found ==> at < table.Length && table[at].Empty?
                        && forall j | 0 <= j < table.Length && Between(HomeFor(hash, s, table.Length), j, at) :: table[j].Cell?
      ensures !found ==> AllUsed(table[..])
    {
      var tmp := HomeFor(hash, s, table.Length);
      var i := tmp;
      while i < table.Length
        invariant tmp <= i <= table.Length && forall j | tmp <= j < i :: table[j].Cell?
      {
        if table[i].Empty? {
          return true, i;
        }
        i := i + 1;
      }
      i := 0;
      while i < tmp
        invariant 0 <= i <= tmp && forall j | tmp <= j < table.Length || 0 <= j < i :: table[j].Cell?
      {
        if table[i].Empty? {
          return true, i;
        }
        i := i + 1;
      }
      return false, 0;
    }

    /** Puts the next number in an unused slot. */
    method PutAt(s: string, at: nat)
      requires Valid() && at < table.Length && table[at].Empty?
      requires forall j | 0 <= j < table.Length && Between(HomeFor(hash, s, table.Length), j, at) :: table[j].Cell?
      modifies table, this`lst, this`pos
      ensures Valid() && lst == old(lst) + [s]
    {
      hide Placed;
      Filled(hash, table[..], lst, pos, s, at);
      ghost var c := table[..];
      table[at] := Cell(s, |lst|);
      lst, pos := lst + [s], pos + [at];
      assert table[..] == c[at := Cell(s, |lst| - 1)];
    }

    /** Gives all strings of a list their numbers again; none of them is compared. */
    method Fill(list: seq<string>)
      requires Valid() && lst == [] && |list| < table.Length
      modifies table, this`lst, this`pos
      ensures Valid() && lst == list
    {
      hide Placed;
      var id := 0;
      while id < |list|
        invariant 0 <= id <= |list| && Valid() && lst == list[..id]
      {
        var found, at := ProbeUnused(list[id]);
        if !found {
          Crowd(hash, table[..], lst, pos);
          assert false;
        }
        PutAt(list[id], at);
        id := id + 1;
      }
    }

    method Expand()
      requires Valid()
      modifies this
      ensures Valid() && lst == old(lst) && table.Length == 2 * old(table.Length) && fresh(table)
      ensures !AllUsed(table[..])
    {
      var list := lst;
      Crowd(hash, table[..], lst, pos);
      table := new Cell[2 * table.Length](i => Empty);
      lst, pos := [], [];
      assert Valid();
      Fill(list);
      Crowd(hash, table[..], lst, pos);
    }

    /** The number of a string, a new one if it has none. */
    method Register(s: string) returns (id: nat)
      requires Valid()
      modifies this, table
      ensures Valid() && lst == Interned(old(lst), s) && id == FirstOf(lst, s) && id < |lst|
      ensures s in old(lst) ==> id == FirstOf(old(lst), s)
    {
      hide Placed, FirstOf;
      while true
        invariant Valid() && lst == old(lst) && (table == old(table) || fresh(table))
        decreases AllUsed(table[..])
      {
        var found, at := Probe(s);
        if found {
          if table[at].Cell? {
            return table[at].id;
          }
          id := |lst|;
          NewFirst(lst, s);
          AnyUnused(hash, table[..], s, at);
          PutAt(s, at);
          return;
        }
        Expand();
      }
    }

    /** The number of a string, if it has one.  A full table grows even so. */
    method Find(s: string) returns (id: int)
      requires Valid()
      modifies this
      ensures Valid() && lst == old(lst) && (table == old(table) || fresh(table))
      ensures if s in lst then id == FirstOf(lst, s) else id == -1
    {
      hide Placed, FirstOf;
      while true
        invariant Valid() && lst == old(lst) && (table == old(table) || fresh(table))
        decreases AllUsed(table[..])
      {
        var found, at := Probe(s);
        if found {
          return if table[at].Cell? then table[at].id else -1;
        }
        Expand();
      }
    }

    /** The string of a number. */
    method Get(i: nat) returns (s: string)
      requires Valid() && i < |lst|
      ensures s == lst[i] && FirstOf(lst, s) <= i && (NoDup(lst) ==> FirstOf(lst, s) == i)
    {
      return lst[i];
    }
  }

  lemma AnySlots(hash: string -> nat, c: seq<Cell>, lst: seq<string>, pos: seq<nat>)
    requires Placed(hash, c, lst, pos)
    ensures |c| > 0
  {
  }

  lemma NewFirst(lst: seq<string>, s: string)
    requires s !in lst
    ensures FirstOf(lst + [s], s) == |lst|
  {
    assert (lst + [s])[|lst|] == s;
  }

  lemma AnyUnused(hash: string -> nat, c: seq<Cell>, s: string, i: nat)
    requires Passed(hash, c, s, i)
    ensures |c| > 0 && forall j | 0 <= j < |c| && Between(HomeFor(hash, s, |c|), j, i) :: c[j].Cell?
  {
  }
}
