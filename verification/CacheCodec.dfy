/** Saving compiled code to a cache file and loading it again. */
module CacheCodec {
  import opened Basics
  import opened CacheFormat

  datatype Par = Par(name: seq<Byte>, isVarg: bool)

  /** Compiled code; its instructions name strings of its pool by number. */
  datatype Exec = Exec(pool: nat, params: seq<Par>, instrs: seq<CacheFormat.Instr>, cached: bool)

  datatype Unit = Unit(root: Word, execs: seq<Exec>)

  /** The number of a string in a pool; one past the last if it has none. */
  function NumberOf(pool: seq<Str>, name: seq<Byte>): (v: nat)
    ensures v <= |pool| && (v < |pool| ==> pool[v].content == name)
    ensures forall u | 0 <= u < v :: pool[u].content != name
  {
    if pool == [] then 0 else if pool[0].content == name then 0 else 1 + NumberOf(pool[1..], name)
  }

  /** Every number there was still stands for the same string. */
  ghost predicate Grew(mem: map<nat, seq<Str>>, more: map<nat, seq<Str>>) {
    mem.Keys == more.Keys && forall p | p in mem :: mem[p] <= more[p]
  }

  ghost predicate Names(pool: seq<Str>, s: Param, p: Par) {
    s.name < |pool| && pool[s.name].content == p.name && s.isVarg == (if p.isVarg then 1 else 0)
  }

  ghost predicate AllName(pool: seq<Str>, ss: seq<Param>, ps: seq<Par>) {
    |ss| == |ps| && forall i | 0 <= i < |ps| :: Names(pool, ss[i], ps[i])
  }

  /** What is to be written stands for the code. */
  ghost predicate Stands(mem: map<nat, seq<Str>>, ids: seq<nat>, c: Code, e: Exec) {
    && c.pool < |ids| && ids[c.pool] == e.pool && e.pool in mem && AllName(mem[e.pool], c.params, e.params) && c.instrs == e.instrs
  }

  ghost predicate AllStand(mem: map<nat, seq<Str>>, ids: seq<nat>, codes: seq<Code>, execs: seq<Exec>) {
    |codes| == |execs| && forall i | 0 <= i < |execs| :: Stands(mem, ids, codes[i], execs[i])
  }

  function ParamCount(execs: seq<Exec>): nat {
    if execs == [] then 0 else ParamCount(execs[..|execs| - 1]) + |execs[|execs| - 1].params|
  }

  lemma {:induction false} ParamsLess(execs: seq<Exec>, i: nat)
    requires i <= |execs|
    ensures ParamCount(execs[..i]) <= ParamCount(execs)
    decreases |execs|
  {
    if i < |execs| {
      assert execs[..|execs| - 1][..i] == execs[..i];
      ParamsLess(execs[..|execs| - 1], i);
    } else {
      assert execs[..i] == execs;
    }
  }

  /** Everything is small enough for its length to be written in a word. */
  ghost predicate Small(mem: map<nat, seq<Str>>, execs: seq<Exec>) {
    && |execs| < WORD_END
    && (forall e | e in execs :: e.pool in mem && |e.params| < WORD_END && |e.instrs| < WORD_END
          && forall p | p in e.params :: |p.name| < WORD_END)
    && (forall p | p in mem :: |mem[p]| + ParamCount(execs) < WORD_END && forall s | s in mem[p] :: StrFits(s))
  }

  ghost predicate AllFit(mem: map<nat, seq<Str>>) {
    forall p, s | p in mem && s in mem[p] :: StrFits(s)
  }

  /** The string pools in memory. */
  class Pools {
    var mem: map<nat, seq<Str>>

    constructor (mem: map<nat, seq<Str>>)
      ensures this.mem == mem
    {
      this.mem := mem;
    }

    /** The number of a string in a pool; a new one if it has none. */
    method Register(pool: nat, name: seq<Byte>) returns (v: nat)
      requires pool in mem && |name| < WORD_END && AllFit(mem)
      modifies this
      ensures Grew(old(mem), mem) && AllFit(mem) && v < |mem[pool]| && mem[pool][v].content == name
      ensures forall p | p in mem && p != pool :: mem[p] == old(mem)[p]
      ensures |mem[pool]| <= |old(mem)[pool]| + 1
    {
      v := NumberOf(mem[pool], name);
      if v == |mem[pool]| {
        mem := mem[pool := mem[pool] + [Str(name, 1)]];
      }
    }

    method SerializeParams(e: Exec) returns (r: seq<Param>)
      requires e.pool in mem && AllFit(mem) && |mem[e.pool]| + |e.params| < WORD_END && forall p | p in e.params :: |p.name| < WORD_END
      modifies this
      ensures Grew(old(mem), mem) && AllFit(mem) && AllName(mem[e.pool], r, e.params)
      ensures forall p | p in mem && p != e.pool :: mem[p] == old(mem)[p]
      ensures |mem[e.pool]| <= |old(mem)[e.pool]| + |e.params|
    {
      r := [];
      var i := 0;
      while i < |e.params|
        invariant 0 <= i <= |e.params| && Grew(old(mem), mem) && AllFit(mem) && AllName(mem[e.pool], r, e.params[..i])
        invariant forall p | p in mem && p != e.pool :: mem[p] == old(mem)[p]
        invariant |mem[e.pool]| <= |old(mem)[e.pool]| + i
      {
        var name := Register(e.pool, e.params[i].name);
        r := r + [Param(name, if e.params[i].isVarg then 1 else 0)];
        i := i + 1;
      }
      assert e.params[..i] == e.params;
    }

    /** Cached code cannot be saved. */
    method SerializeExec(e: Exec, id: Word) returns (r: Option<Code>)
      requires e.pool in mem && AllFit(mem) && |mem[e.pool]| + |e.params| < WORD_END && forall p | p in e.params :: |p.name| < WORD_END
      modifies this
      ensures r.None? <==> e.cached
      ensures Grew(old(mem), mem) && AllFit(mem)
      ensures r.Some? ==> r.value.pool == id && r.value.instrs == e.instrs && AllName(mem[e.pool], r.value.params, e.params)
      ensures forall p | p in mem && p != e.pool :: mem[p] == old(mem)[p]
      ensures |mem[e.pool]| <= |old(mem)[e.pool]| + |e.params|
    {
      if e.cached {
        return None;
      }
      var params := SerializeParams(e);
      return Some(Code(id, params, e.instrs));
    }

    /** The number of a pool; a new one if it has none. */
    method PoolNumber(ids: seq<nat>, pool: nat) returns (ids': seq<nat>, id: nat)
      requires NoDup(ids)
      ensures NoDup(ids') && ids <= ids' && id < |ids'| <= |ids| + 1 && ids'[id] == pool
      ensures forall x | x in ids' :: x == pool || x in ids
    {
      id := 0;
      while id < |ids| && ids[id] != pool
        invariant 0 <= id <= |ids| && forall k | 0 <= k < id :: ids[k] != pool
      {
        id := id + 1;
      }
      ids' := if id == |ids| then ids + [pool] else ids;
    }

    /** One piece of code after the others. */
    method SerializeNext(ids: seq<nat>, e: Exec) returns (ids': seq<nat>, c: Option<Code>)
      requires NoDup(ids) && |ids| < WORD_END - 1
      requires e.pool in mem && AllFit(mem) && |mem[e.pool]| + |e.params| < WORD_END && forall p | p in e.params :: |p.name| < WORD_END
      modifies this
      ensures c.None? <==> e.cached
      ensures Grew(old(mem), mem) && AllFit(mem) && NoDup(ids') && ids <= ids' && |ids'| <= |ids| + 1
      ensures forall x | x in ids' :: x == e.pool || x in ids
      ensures c.Some? ==> Stands(mem, ids', c.value, e)
      ensures forall p | p in mem :: |mem[p]| <= |old(mem)[p]| + |e.params|
    {
      var id;
      ids', id := PoolNumber(ids, e.pool);
      c := SerializeExec(e, id);
    }

    lemma SmallAt(mem: map<nat, seq<Str>>, execs: seq<Exec>, i: nat)
      requires Small(mem, execs) && i < |execs|
      ensures var e := execs[i];
              && e.pool in mem && (forall p | p in e.params :: |p.name| < WORD_END)
              && |mem[e.pool]| + ParamCount(execs[..i]) + |e.params| < WORD_END
      ensures ParamCount(execs[..i + 1]) == ParamCount(execs[..i]) + |execs[i].params|
    {
      assert execs[i] in execs;
      ParamsLess(execs, i + 1);
      assert execs[..i + 1][..i] == execs[..i];
    }

    lemma SmallEnd(mem: map<nat, seq<Str>>, execs: seq<Exec>, i: nat)
      requires Small(mem, execs) && i <= |execs|
      ensures |execs| < WORD_END && AllFit(mem) && forall p | p in mem :: |mem[p]| + ParamCount(execs[..i]) < WORD_END
    {
      ParamsLess(execs, i);
    }

    lemma AllStandMore(mem: map<nat, seq<Str>>, more: map<nat, seq<Str>>, ids: seq<nat>, ids': seq<nat>, codes: seq<Code>, execs: seq<Exec>)
      requires AllStand(mem, ids, codes, execs) && Grew(mem, more) && ids <= ids'
      ensures AllStand(more, ids', codes, execs)
    {
      forall i | 0 <= i < |execs| ensures Stands(more, ids', codes[i], execs[i]) {
        assert Stands(mem, ids, codes[i], execs[i]);
      }
    }

    /** Numbers the pools in the order they are met, and all names in them. */
    method SerializeExecs(execs: seq<Exec>) returns (ids: seq<nat>, codes: Option<seq<Code>>)
      requires Small(mem, execs)
      modifies this
      ensures codes.None? <==> exists e :: e in execs && e.cached
      ensures Grew(old(mem), mem) && AllFit(mem) && forall p | p in mem :: |mem[p]| < WORD_END
      ensures NoDup(ids) && |ids| <= |execs| && forall id | id in ids :: id in mem
      ensures codes.Some? ==> AllStand(mem, ids, codes.value, execs)
    {
      hide Stands, Small;
      ids := [];
      var out: seq<Code> := [];
      var i := 0;
      SmallEnd(mem, execs, 0);
      while i < |execs|
        invariant 0 <= i <= |execs| && Grew(old(mem), mem) && AllFit(mem) && NoDup(ids) && |ids| <= i
        invariant forall id | id in ids :: id in mem
        invariant AllStand(mem, ids, out, execs[..i]) && forall k | 0 <= k < i :: !execs[k].cached
        invariant forall p | p in mem :: |mem[p]| <= |old(mem)[p]| + ParamCount(execs[..i])
      {
        ghost var mem0, ids0 := mem, ids;
        SmallAt(old(mem), execs, i);
        SmallEnd(old(mem), execs, i + 1);
        var c;
        ids, c := SerializeNext(ids, execs[i]);
        if c.None? {
          assert execs[i] in execs;
          return ids, None;
        }
        AllStandMore(mem0, mem, ids0, ids, out, execs[..i]);
        out := out + [c.value];
        i := i + 1;
      }
      SmallEnd(old(mem), execs, i);
      assert execs[..i] == execs;
      return ids, Some(out);
    }
  }

  // ---------------------------------------------------------------------------
  // Streams

  /** What a reading method returns is what the format says. */
  ghost predicate AsRead<T>(spec: Option<Read<T>>, got: Option<T>, rest: seq<Byte>) {
    match spec
    case None => got.None?
    case Some(Read(x, r)) => got == Some(x) && rest == r
  }

  /** With `xs` read already, the rest decides. */
  ghost function Prefixed<T>(xs: seq<T>, r: Option<Read<seq<T>>>): Option<Read<seq<T>>> {
    match r
    case None => None
    case Some(Read(ys, rest)) => Some(Read(xs + ys, rest))
  }

  /** Nothing has been read yet; one more has; all have. */
  lemma Prefixes<T>(one: seq<Byte> -> Option<Read<T>>, xs: seq<T>, n: nat, s: seq<Byte>)
    ensures Prefixed([], ReadMany(one, n, s)) == ReadMany(one, n, s)
    ensures Prefixed(xs, ReadMany(one, 0, s)) == Some(Read(xs, s))
    ensures n > 0 ==>
      match one(s)
      case None => ReadMany(one, n, s).None?
      case Some(Read(x, r)) => Prefixed(xs, ReadMany(one, n, s)) == Prefixed(xs + [x], ReadMany(one, n - 1, r))
  {
    assert xs + [] == xs;
    match ReadMany(one, n, s) {
      case None =>
      case Some(Read(ys, _)) => assert [] + ys == ys;
    }
    if n > 0 {
      match one(s)
      case None =>
      case Some(Read(x, r)) =>
        match ReadMany(one, n - 1, r)
        case None =>
        case Some(Read(ys, _)) => assert xs + ([x] + ys) == xs + [x] + ys;
    }
  }

  class Stream {
    var data: seq<Byte>
    var pos: nat

    ghost predicate Valid()
      reads this
    {
      pos <= |data|
    }

    ghost function Rest(): seq<Byte>
      reads this
      requires Valid()
    {
      data[pos..]
    }

    constructor ()
      ensures Valid() && data == [] && pos == 0
    {
      data, pos := [], 0;
    }

    // -------------------------------------------------------------------------
    // Writing

    method Write(s: seq<Byte>)
      modifies this`data
      ensures data == old(data) + s
    {
      data := data + s;
    }

    method PutPool(pool: seq<Str>)
      requires PoolFits(pool)
      modifies this`data
      ensures data == old(data) + PoolBytes(pool)
    {
      Write(WordBytes(|pool|));
      assert forall s | s in pool :: StrFits(s) && StrBytes.requires(s);
      var i := 0;
      while i < |pool|
        invariant 0 <= i <= |pool| && data == old(data) + (WordBytes(|pool|) + Each(StrBytes, pool[..i]))
      {
        assert pool[..i + 1][..i] == pool[..i];
        assert pool[i] in pool;
        Write(StrBytes(pool[i]));
        i := i + 1;
      }
      assert pool[..i] == pool;
    }

    method PutParams(params: seq<Param>)
      requires |params| < WORD_END
      modifies this`data
      ensures data == old(data) + (WordBytes(|params|) + Each(ParamBytes, params))
    {
      Write(WordBytes(|params|));
      var i := 0;
      while i < |params|
        invariant 0 <= i <= |params| && data == old(data) + (WordBytes(|params|) + Each(ParamBytes, params[..i]))
      {
        assert params[..i + 1][..i] == params[..i];
        Write(WordBytes(params[i].name));
        Write([params[i].isVarg]);
        i := i + 1;
      }
      assert params[..i] == params;
    }

    method PutInstrs(instrs: seq<CacheFormat.Instr>)
      modifies this`data
      ensures data == old(data) + Each(InstrBytes, instrs)
    {
      var i := 0;
      while i < |instrs|
        invariant 0 <= i <= |instrs| && data == old(data) + Each(InstrBytes, instrs[..i])
      {
        assert instrs[..i + 1][..i] == instrs[..i];
        Write([instrs[i].opc]);
        Write(WordBytes(instrs[i].arg));
        i := i + 1;
      }
      assert instrs[..i] == instrs;
    }

    method PutCode(c: Code)
      requires CodeFits(c)
      modifies this`data
      ensures data == old(data) + CodeBytes(c)
    {
      hide WordBytes, Each, ParamBytes, InstrBytes;
      Write(WordBytes(c.pool));
      Write(WordBytes(|c.instrs|));
      PutParams(c.params);
      PutInstrs(c.instrs);
    }

    method PutPools(pools: seq<seq<Str>>)
      requires |pools| < WORD_END && forall p | p in pools :: PoolFits(p)
      modifies this`data
      ensures data == old(data) + (WordBytes(|pools|) + Each(PoolBytes, pools))
    {
      hide PoolBytes, PoolFits;
      Write(WordBytes(|pools|));
      var i := 0;
      while i < |pools|
        invariant 0 <= i <= |pools| && data == old(data) + (WordBytes(|pools|) + Each(PoolBytes, pools[..i]))
      {
        assert pools[..i + 1][..i] == pools[..i];
        PutPool(pools[i]);
        i := i + 1;
      }
      assert pools[..i] == pools;
    }

    method PutCodes(codes: seq<Code>)
      requires |codes| < WORD_END && forall c | c in codes :: CodeFits(c)
      modifies this`data
      ensures data == old(data) + (WordBytes(|codes|) + Each(CodeBytes, codes))
    {
      hide CodeBytes, CodeFits;
      Write(WordBytes(|codes|));
      var i := 0;
      while i < |codes|
        invariant 0 <= i <= |codes| && data == old(data) + (WordBytes(|codes|) + Each(CodeBytes, codes[..i]))
      {
        assert codes[..i + 1][..i] == codes[..i];
        PutCode(codes[i]);
        i := i + 1;
      }
      assert codes[..i] == codes;
    }

    method PutFile(c: Contents)
      requires Fits(c)
      modifies this`data
      ensures data == old(data) + FileBytes(c)
    {
      hide PoolBytes, CodeBytes, WordBytes, Each;
      Write(HEADER);
      Write(WordBytes(c.root));
      PutPools(c.pools);
      PutCodes(c.codes);
    }

    // -------------------------------------------------------------------------
    // Reading

    method Take(n: nat) returns (r: Option<seq<Byte>>)
      requires Valid()
      modifies this`pos
      ensures Valid() && if n <= |old(Rest())| then r == Some(old(Rest())[..n]) && Rest() == old(Rest())[n..] else r.None?
    {
      if pos + n > |data| {
        return None;
      }
      assert data[pos..][..n] == data[pos..pos + n] && data[pos..][n..] == data[pos + n..];
      r := Some(data[pos..pos + n]);
      pos := pos + n;
    }

    method GetWord() returns (r: Option<Word>)
      requires Valid()
      modifies this`pos
      ensures Valid() && AsRead(ReadWord(old(Rest())), r, Rest())
    {
      var s := Take(8);
      if s.None? {
        return None;
      }
      NumberBound(s.value);
      return Some(Number(s.value));
    }

    method GetStr() returns (r: Option<Str>)
      requires Valid()
      modifies this`pos
      ensures Valid() && AsRead(ReadStr(old(Rest())), r, Rest())
    {
      var len := GetWord();
      if len.None? {
        return None;
      }
      ghost var r0 := Rest();
      var flag := Take(1);
      if flag.None? {
        return None;
      }
      var cont := Take(len.value + 1);
      if cont.None? {
        return None;
      }
      assert r0[1..][..len.value + 1][..len.value] == r0[1..1 + len.value];
      return Some(Str(cont.value[..len.value], flag.value[0]));
    }

    method GetInstr() returns (r: Option<CacheFormat.Instr>)
      requires Valid()
      modifies this`pos
      ensures Valid() && AsRead(ReadInstr(old(Rest())), r, Rest())
    {
      var opc := Take(1);
      if opc.None? {
        return None;
      }
      var arg := GetWord();
      if arg.None? {
        return None;
      }
      return Some(CacheFormat.Instr(opc.value[0], arg.value));
    }

    method GetParam() returns (r: Option<Param>)
      requires Valid()
      modifies this`pos
      ensures Valid() && AsRead(ReadParam(old(Rest())), r, Rest())
    {
      var name := GetWord();
      if name.None? {
        return None;
      }
      var isVarg := Take(1);
      if isVarg.None? {
        return None;
      }
      return Some(Param(name.value, isVarg.value[0]));
    }

    method GetPool() returns (r: Option<seq<Str>>)
      requires Valid()
      modifies this`pos
      ensures Valid() && AsRead(ReadPool(old(Rest())), r, Rest())
    {
      hide ReadStr, ReadWord;
      var n := GetWord();
      if n.None? {
        return None;
      }
      ghost var all := ReadMany(ReadStr, n.value, Rest());
      Prefixes(ReadStr, [], n.value, Rest());
      var xs: seq<Str> := [];
      var i := 0;
      while i < n.value
        invariant 0 <= i <= n.value && Valid() && |xs| == i && all == Prefixed(xs, ReadMany(ReadStr, n.value - i, Rest()))
      {
        Prefixes(ReadStr, xs, n.value - i, Rest());
        var x := GetStr();
        if x.None? {
          return None;
        }
        xs := xs + [x.value];
        i := i + 1;
      }
      Prefixes(ReadStr, xs, 0, Rest());
      return Some(xs);
    }

    method GetParams() returns (r: Option<seq<Param>>)
      requires Valid()
      modifies this`pos
      ensures Valid() && AsRead(ReadParams(old(Rest())), r, Rest())
    {
      hide ReadParam, ReadWord;
      var n := GetWord();
      if n.None? {
        return None;
      }
      ghost var all := ReadMany(ReadParam, n.value, Rest());
      Prefixes(ReadParam, [], n.value, Rest());
      var xs: seq<Param> := [];
      var i := 0;
      while i < n.value
        invariant 0 <= i <= n.value && Valid() && |xs| == i && all == Prefixed(xs, ReadMany(ReadParam, n.value - i, Rest()))
      {
        Prefixes(ReadParam, xs, n.value - i, Rest());
        var x := GetParam();
        if x.None? {
          return None;
        }
        xs := xs + [x.value];
        i := i + 1;
      }
      Prefixes(ReadParam, xs, 0, Rest());
      return Some(xs);
    }

    method GetInstrs(n: nat) returns (r: Option<seq<CacheFormat.Instr>>)
      requires Valid()
      modifies this`pos
      ensures Valid() && AsRead(ReadMany(ReadInstr, n, old(Rest())), r, Rest())
    {
      hide ReadInstr;
      ghost var all := ReadMany(ReadInstr, n, Rest());
      Prefixes(ReadInstr, [], n, Rest());
      var xs: seq<CacheFormat.Instr> := [];
      var i := 0;
      while i < n
        invariant 0 <= i <= n && Valid() && |xs| == i && all == Prefixed(xs, ReadMany(ReadInstr, n - i, Rest()))
      {
        Prefixes(ReadInstr, xs, n - i, Rest());
        var x := GetInstr();
        if x.None? {
          return None;
        }
        xs := xs + [x.value];
        i := i + 1;
      }
      Prefixes(ReadInstr, xs, 0, Rest());
      return Some(xs);
    }

    method GetCode() returns (r: Option<Code>)
      requires Valid()
      modifies this`pos
      ensures Valid() && AsRead(ReadCode(old(Rest())), r, Rest())
    {
      hide ReadWord, ReadParams, ReadMany;
      var pool := GetWord();
      if pool.None? {
        return None;
      }
      var size := GetWord();
      if size.None? {
        return None;
      }
      var params := GetParams();
      if params.None? {
        return None;
      }
      var instrs := GetInstrs(size.value);
      if instrs.None? {
        return None;
      }
      return Some(Code(pool.value, params.value, instrs.value));
    }

    method GetPools() returns (r: Option<seq<seq<Str>>>)
      requires Valid()
      modifies this`pos
      ensures Valid() && AsRead(ReadPools(old(Rest())), r, Rest())
    {
      hide ReadPool, ReadWord;
      var n := GetWord();
      if n.None? {
        return None;
      }
      ghost var all := ReadMany(ReadPool, n.value, Rest());
      Prefixes(ReadPool, [], n.value, Rest());
      var xs: seq<seq<Str>> := [];
      var i := 0;
      while i < n.value
        invariant 0 <= i <= n.value && Valid() && |xs| == i && all == Prefixed(xs, ReadMany(ReadPool, n.value - i, Rest()))
      {
        Prefixes(ReadPool, xs, n.value - i, Rest());
        var x := GetPool();
        if x.None? {
          return None;
        }
        xs := xs + [x.value];
        i := i + 1;
      }
      Prefixes(ReadPool, xs, 0, Rest());
      return Some(xs);
    }

    method GetCodes(n: nat, pools: nat) returns (r: Option<seq<Code>>)
      requires Valid()
      modifies this`pos
      ensures Valid() && AsRead(ReadMany(ReadCodeOf(pools), n, old(Rest())), r, Rest())
    {
      hide ReadCode;
      ghost var all := ReadMany(ReadCodeOf(pools), n, Rest());
      Prefixes(ReadCodeOf(pools), [], n, Rest());
      var xs: seq<Code> := [];
      var i := 0;
      while i < n
        invariant 0 <= i <= n && Valid() && |xs| == i && all == Prefixed(xs, ReadMany(ReadCodeOf(pools), n - i, Rest()))
      {
        Prefixes(ReadCodeOf(pools), xs, n - i, Rest());
        var x := GetCode();
        if x.None? {
          return None;
        }
        if x.value.pool >= pools {
          return None;
        }
        xs := xs + [x.value];
        i := i + 1;
      }
      Prefixes(ReadCodeOf(pools), xs, 0, Rest());
      return Some(xs);
    }

    method GetFile() returns (r: Option<Contents>)
      requires Valid()
      modifies this`pos
      ensures Valid() && r == ReadFile(old(Rest()))
    {
      hide ReadWord, ReadPools, ReadMany, ReadCodeOf;
      var header := Take(2);
      if header.None? || header.value != HEADER {
        return None;
      }
      var root := GetWord();
      if root.None? {
        return None;
      }
      var pools := GetPools();
      if pools.None? {
        return None;
      }
      var n := GetWord();
      if n.None? {
        return None;
      }
      var codes := GetCodes(n.value, |pools.value|);
      if codes.None? {
        return None;
      }
      return Some(Contents(root.value, pools.value, codes.value));
    }
  }

  // ---------------------------------------------------------------------------
  // Saving and loading

  /** What a file is to contain for the unit. */
  ghost predicate Saved(mem: map<nat, seq<Str>>, ids: seq<nat>, c: Contents, u: Unit) {
    && c.root == u.root && AllStand(mem, ids, c.codes, u.execs) && NoDup(ids)
    && |c.pools| == |ids| && forall i | 0 <= i < |ids| :: ids[i] in mem && c.pools[i] == mem[ids[i]]
  }

  lemma SavedFits(mem: map<nat, seq<Str>>, ids: seq<nat>, c: Contents, u: Unit)
    requires Saved(mem, ids, c, u) && AllFit(mem) && |ids| <= |u.execs| < WORD_END && forall p | p in mem :: |mem[p]| < WORD_END
    requires forall e | e in u.execs :: |e.params| < WORD_END && |e.instrs| < WORD_END
    ensures Fits(c) && forall d | d in c.codes :: d.pool < |c.pools|
  {
    forall d | d in c.codes ensures CodeFits(d) && d.pool < |c.pools| {
      var i :| 0 <= i < |c.codes| && c.codes[i] == d;
      assert u.execs[i] in u.execs && Stands(mem, ids, d, u.execs[i]);
    }
  }

  /** Saves a unit.  Says whether it could: cached code cannot be. */
  method EncodeCache(pools: Pools, u: Unit, stream: Stream) returns (ok: bool, ghost c: Contents, ghost ids: seq<nat>)
    requires Small(pools.mem, u.execs)
    modifies pools, stream`data
    ensures ok <==> forall e | e in u.execs :: !e.cached
    ensures Grew(old(pools.mem), pools.mem)
    ensures ok ==> Saved(pools.mem, ids, c, u) && Fits(c) && (forall d | d in c.codes :: d.pool < |c.pools|)
                   && stream.data == old(stream.data) + FileBytes(c)
  {
    hide Stands, FileBytes, Fits;
    var codes;
    var list: seq<nat>;
    list, codes := pools.SerializeExecs(u.execs);
    ids := list;
    if codes.None? {
      c := Contents(u.root, [], []);
      return false, c, ids;
    }
    var contents: seq<seq<Str>> := [];
    var i := 0;
    while i < |list|
      invariant 0 <= i <= |list| && |contents| == i && forall k | 0 <= k < i :: list[k] in pools.mem && contents[k] == pools.mem[list[k]]
    {
      assert list[i] in list;
      contents := contents + [pools.mem[list[i]]];
      i := i + 1;
    }
    var file := Contents(u.root, contents, codes.value);
    SavedFits(pools.mem, list, file, u);
    c := file;
    stream.PutFile(file);
    ok := true;
  }

  /** The parameters a file names, if it names strings there are. */
  function Loaded(pool: seq<Str>, params: seq<Param>): (r: Option<seq<Par>>)
    ensures r.Some? ==> |r.value| == |params|
  {
    if params == [] then Some([])
    else
      var p := params[|params| - 1];
      match Loaded(pool, params[..|params| - 1])
      case None => None
      case Some(ps) => if p.name >= |pool| then None else Some(ps + [Par(pool[p.name].content, p.isVarg != 0)])
  }

  lemma {:induction false} LoadedBack(pool: seq<Str>, ss: seq<Param>, ps: seq<Par>)
    requires AllName(pool, ss, ps)
    ensures Loaded(pool, ss) == Some(ps)
    decreases |ss|
  {
    if ss != [] {
      var n := |ss| - 1;
      LoadedBack(pool, ss[..n], ps[..n]);
      assert Names(pool, ss[n], ps[n]) && ps == ps[..n] + [ps[n]];
    }
  }

  lemma {:induction false} LoadedPart(pool: seq<Str>, ss: seq<Param>, n: nat)
    requires n <= |ss| && Loaded(pool, ss).Some?
    ensures Loaded(pool, ss[..n]).Some?
    decreases |ss|
  {
    if n < |ss| {
      assert ss[..|ss| - 1][..n] == ss[..n];
      LoadedPart(pool, ss[..|ss| - 1], n);
    } else {
      assert ss[..n] == ss;
    }
  }

  method UnserializeParams(pool: seq<Str>, params: seq<Param>) returns (r: Option<seq<Par>>)
    ensures r == Loaded(pool, params)
  {
    var ps: seq<Par> := [];
    var i := 0;
    while i < |params|
      invariant 0 <= i <= |params| && Loaded(pool, params[..i]) == Some(ps)
    {
      assert params[..i + 1][..i] == params[..i];
      if params[i].name >= |pool| {
        if Loaded(pool, params).Some? {
          LoadedPart(pool, params, i + 1);
        }
        return None;
      }
      ps := ps + [Par(pool[params[i].name].content, params[i].isVarg != 0)];
      i := i + 1;
    }
    assert params[..i] == params;
    return Some(ps);
  }

  /** The unit a file contains; its code names pools by their place in the file. */
  ghost predicate Restores(c: Contents, u: Unit) {
    && u.root == c.root && |u.execs| == |c.codes|
    && forall i | 0 <= i < |c.codes| ::
         && c.codes[i].pool < |c.pools| && u.execs[i].pool == c.codes[i].pool && !u.execs[i].cached
         && u.execs[i].instrs == c.codes[i].instrs && Loaded(c.pools[c.codes[i].pool], c.codes[i].params) == Some(u.execs[i].params)
  }

  /** Loads a unit: nothing if the file is no such file, or names a string there is not. */
  method DecodeCache(stream: Stream) returns (u: Option<Unit>, pools: seq<seq<Str>>)
    requires stream.Valid()
    modifies stream`pos
    ensures u.Some? ==> var c := ReadFile(old(stream.Rest())); c.Some? && c.value.pools == pools && Restores(c.value, u.value)
    ensures u.None? ==> var c := ReadFile(old(stream.Rest()));
              c.None? || exists i :: 0 <= i < |c.value.codes| && c.value.codes[i].pool < |c.value.pools|
                                     && Loaded(c.value.pools[c.value.codes[i].pool], c.value.codes[i].params).None?
  {
    hide ReadFile, Loaded;
    ghost var s := stream.Rest();
    var file := stream.GetFile();
    if file.None? {
      return None, [];
    }
    var c := file.value;
    CodesInside(s);
    pools := c.pools;
    var execs: seq<Exec> := [];
    var i := 0;
    while i < |c.codes|
      invariant 0 <= i <= |c.codes| && Restores(Contents(c.root, c.pools, c.codes[..i]), Unit(c.root, execs))
    {
      var d := c.codes[i];
      assert d in c.codes;
      var params := UnserializeParams(c.pools[d.pool], d.params);
      if params.None? {
        return None, pools;
      }
      execs := execs + [Exec(d.pool, params.value, d.instrs, false)];
      i := i + 1;
    }
    assert c.codes[..i] == c.codes;
    return Some(Unit(c.root, execs)), pools;
  }

  lemma {:induction false} ManyInside(pools: nat, n: nat, s: seq<Byte>)
    ensures var r := ReadMany(ReadCodeOf(pools), n, s);
            r.Some? ==> forall d | d in r.value.value :: d.pool < pools
    decreases n
  {
    hide ReadCode;
    if n > 0 && ReadCodeOf(pools)(s).Some? {
      ManyInside(pools, n - 1, ReadCodeOf(pools)(s).value.rest);
    }
  }

  lemma CodesInside(s: seq<Byte>)
    ensures var c := ReadFile(s); c.Some? ==> forall d | d in c.value.codes :: d.pool < |c.value.pools|
  {
    hide ReadPools, ReadCode, ReadMany, ReadWord;
    if ReadFile(s).Some? {
      var r := ReadPools(ReadWord(s[2..]).value.rest).value;
      var n := ReadWord(r.rest).value;
      ManyInside(|r.value|, n.value, n.rest);
    }
  }

  /** The same code, with the same strings under the same numbers. */
  ghost predicate SameCode(mem: map<nat, seq<Str>>, e: Exec, pools: seq<seq<Str>>, l: Exec) {
    && e.pool in mem && l.pool < |pools| && pools[l.pool] == mem[e.pool] && l.params == e.params && l.instrs == e.instrs
  }

  /** The same unit; code that shared a pool still does. */
  ghost predicate SameUnit(mem: map<nat, seq<Str>>, u: Unit, pools: seq<seq<Str>>, l: Unit) {
    && l.root == u.root && |l.execs| == |u.execs|
    && (forall i | 0 <= i < |u.execs| :: SameCode(mem, u.execs[i], pools, l.execs[i]))
    && (forall i, j | 0 <= i < |u.execs| && 0 <= j < |u.execs| :: u.execs[i].pool == u.execs[j].pool <==> l.execs[i].pool == l.execs[j].pool)
  }

  /** A file that was saved loads, and as what was saved. */
  lemma SavedRestores(mem: map<nat, seq<Str>>, ids: seq<nat>, c: Contents, u: Unit)
    requires Saved(mem, ids, c, u)
    ensures forall i | 0 <= i < |c.codes| :: c.codes[i].pool < |c.pools| && Loaded(c.pools[c.codes[i].pool], c.codes[i].params) == Some(u.execs[i].params)
    ensures forall l | Restores(c, l) :: SameUnit(mem, u, c.pools, l)
  {
    forall i | 0 <= i < |c.codes|
      ensures c.codes[i].pool < |c.pools| && Loaded(c.pools[c.codes[i].pool], c.codes[i].params) == Some(u.execs[i].params) {
      assert Stands(mem, ids, c.codes[i], u.execs[i]);
      LoadedBack(mem[u.execs[i].pool], c.codes[i].params, u.execs[i].params);
    }
    hide Loaded, AllName;
  }

  /** Saving a unit and loading it again gives the unit back. */
  method SaveAndLoad(pools: Pools, u: Unit) returns (l: Option<Unit>, loaded: seq<seq<Str>>)
    requires Small(pools.mem, u.execs) && forall e | e in u.execs :: !e.cached
    modifies pools
    ensures Grew(old(pools.mem), pools.mem) && l.Some? && SameUnit(pools.mem, u, loaded, l.value)
  {
    hide ReadFile, FileBytes, Fits, Small, Saved, Loaded;
    var stream := new Stream();
    var ok;
    ghost var c, ids;
    ok, c, ids := EncodeCache(pools, u, stream);
    FileBack(c);
    assert stream.Rest() == FileBytes(c);
    SavedRestores(pools.mem, ids, c, u);
    l, loaded := DecodeCache(stream);
  }
}
