/** The bump allocator under the collected heaps, and the pool of equal-sized elements on
    top of it. */
module Heaps {
  import opened Basics

  const MAX_COMPACT_BC := 2

  /** Memory from the system: where it is, and how much of it. */
  datatype Block = Block(id: nat, cap: nat)

  datatype Addr = Addr(block: nat, off: nat)

  /** Memory handed out: in the `at`th block, from `off` on. */
  datatype Region = Region(addr: Addr, at: nat, len: nat)

  function Align4(size: nat): (r: nat)
    ensures r % 4 == 0 && size <= r < size + 4
  {
    if size % 4 != 0 then size - size % 4 + 4 else size
  }

  /** Two regions have no byte in common. */
  predicate Apart(r: Region, s: Region) {
    r.addr.block != s.addr.block || r.addr.off + r.len <= s.addr.off || s.addr.off + s.len <= r.addr.off
  }

  ghost predicate DistinctBlocks(blocks: seq<Block>) {
    forall i, j | 0 <= i < j < |blocks| :: blocks[i].id != blocks[j].id
  }

  /** A region lies in a block in use; in the current one, before the current pointer.  Only
      one that has a block of its own goes beyond the first `bsize` bytes. */
  ghost predicate Inside(blocks: seq<Block>, btop: nat, cur: nat, bsize: nat, r: Region) {
    && r.at <= btop < |blocks| && blocks[r.at].id == r.addr.block
    && r.addr.off % 4 == 0 && r.addr.off + r.len <= blocks[r.at].cap && (r.at == btop ==> r.addr.off + r.len <= cur)
    && (r.addr.off + r.len <= bsize || (r.addr.off == 0 && r.len > bsize) || r.len == 0)
  }

  ghost predicate AllApart(given: seq<Region>) {
    forall i, j | 0 <= i < j < |given| :: Apart(given[i], given[j])
  }

  /** What has been handed out since the last reset is in place and does not overlap, and
      every block has room for `bsize` bytes. */
  ghost predicate Sound(blocks: seq<Block>, btop: nat, cur: nat, end: nat, bsize: nat, given: seq<Region>) {
    && DistinctBlocks(blocks) && btop < |blocks| && cur <= end <= blocks[btop].cap && cur % 4 == 0
    && (forall i | 0 <= i < |blocks| :: bsize <= blocks[i].cap) && (end <= bsize || cur == end)
    && (forall k | 0 <= k < |given| :: Inside(blocks, btop, cur, bsize, given[k]))
    && AllApart(given)
  }

  ghost predicate NewId(blocks: seq<Block>, id: nat) {
    forall i | 0 <= i < |blocks| :: blocks[i].id != id
  }

  /** Handing out the next bytes of the current block, or all of a block of its own. */
  lemma Bumped(blocks: seq<Block>, btop: nat, cur: nat, end: nat, bsize: nat, given: seq<Region>, len: nat)
    requires Sound(blocks, btop, cur, end, bsize, given) && len % 4 == 0 && cur + len <= end
    ensures Sound(blocks, btop, cur + len, end, bsize, given + [Region(Addr(blocks[btop].id, cur), btop, len)])
  {
  }

  lemma Filled(blocks: seq<Block>, btop: nat, bsize: nat, given: seq<Region>, len: nat)
    requires Sound(blocks, btop, 0, 0, bsize, given) && len % 4 == 0 && bsize < len <= blocks[btop].cap
    ensures Sound(blocks, btop, len, len, bsize, given + [Region(Addr(blocks[btop].id, 0), btop, len)])
  {
  }

  /** Going on to another block. */
  lemma NextBlock(blocks: seq<Block>, btop: nat, cur: nat, end: nat, bsize: nat, given: seq<Region>, more: seq<Block>, end': nat)
    requires Sound(blocks, btop, cur, end, bsize, given)
    requires |more| >= |blocks| && btop + 1 < |more| && more[..btop + 1] == blocks[..btop + 1] && DistinctBlocks(more)
    requires end' <= more[btop + 1].cap && end' <= bsize && forall i | 0 <= i < |more| :: bsize <= more[i].cap
    ensures Sound(more, btop + 1, 0, end', bsize, given)
  {
    forall i | 0 <= i <= btop ensures more[i] == blocks[i] {
      assert more[..btop + 1][i] == blocks[..btop + 1][i];
    }
    forall k | 0 <= k < |given| ensures Inside(more, btop + 1, 0, bsize, given[k]) {
      assert Inside(blocks, btop, cur, bsize, given[k]);
    }
  }

  class Heap {
    const bsize: nat
    var blocks: seq<Block>
    var btop: nat
    var cur: nat
    var end: nat
    ghost var given: seq<Region>

    ghost predicate Valid()
      reads this
    {
      Sound(blocks, btop, cur, end, bsize, given)
    }

    /** `id0` and `id1` are what the system hands out. */
    constructor (bsize: nat, id0: nat, id1: nat)
      requires id0 != id1
      ensures Valid() && this.bsize == bsize && given == []
    {
      this.bsize := bsize;
      blocks := [Block(id0, bsize), Block(id1, bsize)];
      btop, cur, end := 0, 0, bsize;
      given := [];
    }

    /** Everything handed out so far may be handed out again. */
    method Reset()
      requires Valid()
      modifies this`btop, this`cur, this`end, this`given
      ensures Valid() && given == []
    {
      btop, cur, end := 0, 0, bsize;
      given := [];
    }

    /** Gives the blocks that are not in use back to the system. */
    method Compact()
      requires Valid()
      modifies this`blocks
      ensures Valid() && blocks == if |old(blocks)| <= MAX_COMPACT_BC then old(blocks) else old(blocks)[..btop + 1]
    {
      if |blocks| <= MAX_COMPACT_BC {
        return;
      }
      blocks := blocks[..btop + 1];
      forall k | 0 <= k < |given| ensures Inside(blocks, btop, cur, bsize, given[k]) {
        assert Inside(old(blocks), btop, cur, bsize, given[k]);
      }
    }

    /** Puts a block of its own in the next place; a block that is there already goes. */
    method AddLargeBlock(size: nat, id: nat) returns (a: Addr)
      requires Valid() && NewId(blocks, id) && size % 4 == 0 && size > bsize
      modifies this
      ensures Valid() && given == old(given) + [Region(a, btop, size)] && cur == end && btop == old(btop) + 1
    {
      hide Sound;
      var here := Block(id, size);
      ghost var blocks0, btop0, cur0, end0 := blocks, btop, cur, end;
      SoundFacts();
      if btop + 1 < |blocks| {
        btop := btop + 1;
        blocks := blocks[btop := here];
      } else {
        btop := |blocks|;
        blocks := blocks + [here];
      }
      assert blocks[..btop0 + 1] == blocks0[..btop0 + 1];
      NextBlock(blocks0, btop0, cur0, end0, bsize, given, blocks, 0);
      Filled(blocks, btop, bsize, given, size);
      cur, end := size, size;
      given := given + [Region(Addr(id, 0), btop, size)];
      return Addr(id, 0);
    }

    lemma SoundFacts()
      requires Valid()
      ensures btop < |blocks| && DistinctBlocks(blocks) && forall i | 0 <= i < |blocks| :: bsize <= blocks[i].cap
    {
    }

    method AddBlock(size: nat, id: nat) returns (a: Addr)
      requires Valid() && NewId(blocks, id) && size % 4 == 0
      modifies this
      ensures Valid() && given == old(given) + [Region(a, btop, size)] && btop == old(btop) + 1
    {
      hide Sound;
      if size > bsize {
        a := AddLargeBlock(size, id);
        return;
      }
      ghost var blocks0, btop0, cur0, end0 := blocks, btop, cur, end;
      SoundFacts();
      if btop + 1 < |blocks| {
        btop := btop + 1;
      } else {
        btop := |blocks|;
        blocks := blocks + [Block(id, bsize)];
      }
      assert blocks[..btop0 + 1] == blocks0[..btop0 + 1];
      NextBlock(blocks0, btop0, cur0, end0, bsize, given, blocks, bsize);
      Bumped(blocks, btop, 0, bsize, bsize, given, size);
      cur, end := size, bsize;
      a := Addr(blocks[btop].id, 0);
      given := given + [Region(a, btop, size)];
    }

    /** Memory that overlaps nothing handed out since the last reset. */
    method Alloc(size: nat, id: nat) returns (a: Addr, addBlock: bool)
      requires Valid() && NewId(blocks, id)
      modifies this
      ensures Valid() && given == old(given) + [Region(a, btop, Align4(size))]
      ensures addBlock == (btop != old(btop)) == (old(cur) + Align4(size) > old(end))
    {
      hide Sound;
      SoundFacts();
      var len := Align4(size);
      if cur + len <= end {
        Bumped(blocks, btop, cur, end, bsize, given, len);
        a := Addr(blocks[btop].id, cur);
        given := given + [Region(a, btop, len)];
        cur := cur + len;
        return a, false;
      }
      a := AddBlock(len, id);
      return a, true;
    }

    /** Is the address in one of the blocks?  Looks at the first `bsize` bytes of each. */
    method IsIn(p: Addr) returns (r: bool)
      requires Valid()
      ensures r <==> p.off < bsize && exists i :: 0 <= i < |blocks| && blocks[i].id == p.block
    {
      var i := 0;
      while i < |blocks|
        invariant 0 <= i <= |blocks|
        invariant p.off < bsize ==> forall j | 0 <= j < i :: blocks[j].id != p.block
      {
        if blocks[i].id == p.block && p.off < bsize {
          return true;
        }
        i := i + 1;
      }
      return false;
    }
  }

  /** All of a region is known to be in the heap exactly if it is no longer than a block. */
  lemma KnownIn(blocks: seq<Block>, btop: nat, cur: nat, end: nat, bsize: nat, given: seq<Region>, k: nat)
    requires Sound(blocks, btop, cur, end, bsize, given) && k < |given|
    ensures exists i :: 0 <= i < |blocks| && blocks[i].id == given[k].addr.block
    ensures (forall off | given[k].addr.off <= off < given[k].addr.off + given[k].len :: Known(bsize, off)) <==> given[k].len <= bsize
  {
    var r := given[k];
    assert Inside(blocks, btop, cur, bsize, r);
    assert blocks[r.at].id == r.addr.block;
    if r.len > bsize {
      assert !Known(bsize, bsize);
    }
  }

  /** That far into a block an address is recognised. */
  predicate Known(bsize: nat, off: nat) {
    off < bsize
  }

  // ---------------------------------------------------------------------------
  // Elements of one size

  /** The element at `a`. */
  ghost predicate Element(given: seq<Region>, esize: nat, a: Addr) {
    exists k :: 0 <= k < |given| && given[k].addr == a && given[k].len == Align4(esize)
  }

  class Pool {
    const heap: Heap
    const esize: nat
    var freed: seq<Addr>
    ghost var live: set<Addr>

    /** What is in use and what is free are elements, none is both, none is free twice. */
    ghost predicate Valid()
      reads this, heap
    {
      && heap.Valid() && esize > 0 && NoDup(freed)
      && (forall a | a in live :: Element(heap.given, esize, a) && a !in freed)
      && (forall a | a in freed :: Element(heap.given, esize, a))
      && (forall k | 0 <= k < |heap.given| :: heap.given[k].len == Align4(esize) && (heap.given[k].addr in live || heap.given[k].addr in freed))
    }

    constructor (ecount: nat, esize: nat, id0: nat, id1: nat)
      requires esize > 0 && id0 != id1
      ensures Valid() && fresh(heap) && live == {} && this.esize == esize
    {
      this.esize := esize;
      heap := new Heap(ecount * esize, id0, id1);
      freed, live := [], {};
    }

    /** An element nobody uses. */
    method Alloc(id: nat) returns (a: Addr)
      requires Valid() && NewId(heap.blocks, id)
      modifies this`freed, this`live, heap
      ensures Valid() && a !in old(live) && live == old(live) + {a}
      ensures old(freed) != [] ==> a == old(freed)[|old(freed)| - 1] && heap.given == old(heap.given)
    {
      if |freed| > 0 {
        a := freed[|freed| - 1];
        freed := freed[..|freed| - 1];
        live := live + {a};
      } else {
        ghost var given0 := heap.given;
        var grew;
        a, grew := heap.Alloc(esize, id);
        NewElement(heap.given, esize, a);
        live := live + {a};
        Grown(given0, heap.given, esize);
      }
    }

    /** Gives back an element that is in use. */
    method Dump(a: Addr)
      requires Valid() && a in live
      modifies this`freed, this`live
      ensures Valid() && live == old(live) - {a} && freed == old(freed) + [a]
    {
      freed := freed + [a];
      live := live - {a};
    }

    method DumpAll()
      requires Valid()
      modifies this`freed, this`live, heap
      ensures Valid() && live == {} && freed == []
    {
      heap.Reset();
      freed, live := [], {};
    }
  }

  /** Elements that overlap are the same. */
  lemma NewElement(given: seq<Region>, esize: nat, a: Addr)
    requires esize > 0 && AllApart(given) && |given| > 0 && given[|given| - 1].addr == a && given[|given| - 1].len == Align4(esize)
    ensures Element(given, esize, a) && !Element(given[..|given| - 1], esize, a)
  {
  }

  lemma Grown(given: seq<Region>, more: seq<Region>, esize: nat)
    requires |more| == |given| + 1 && more[..|given|] == given
    ensures forall a | Element(given, esize, a) :: Element(more, esize, a)
  {
    forall a | Element(given, esize, a) ensures Element(more, esize, a) {
      var k :| 0 <= k < |given| && given[k].addr == a && given[k].len == Align4(esize);
      assert more[..|given|][k] == given[k];
    }
  }
}
