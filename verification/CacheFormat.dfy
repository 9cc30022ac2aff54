/** The format of cache files: compiled code, and the strings it names by number. */
module CacheFormat {
  import opened Basics

  type Byte = b: int | 0 <= b < 256

  const WORD_END := 0x1_0000_0000_0000_0000
  type Word = n: int | 0 <= n < WORD_END

  /** A string: its bytes, and a flag. */
  datatype Str = Str(content: seq<Byte>, isConst: Byte)

  datatype Instr = Instr(opc: Byte, arg: Word)

  /** A parameter names its string by number. */
  datatype Param = Param(name: Word, isVarg: Byte)

  /** A piece of code names its string pool by number. */
  datatype Code = Code(pool: Word, params: seq<Param>, instrs: seq<Instr>)

  datatype Contents = Contents(root: Word, pools: seq<seq<Str>>, codes: seq<Code>)

  // ---------------------------------------------------------------------------
  // Writing

  /** The `k` lowest bytes of a number, lowest first. */
  function Low(n: nat, k: nat): (s: seq<Byte>)
    ensures |s| == k
  {
    if k == 0 then [] else [n % 256] + Low(n / 256, k - 1)
  }

  function WordBytes(n: Word): (s: seq<Byte>)
    ensures |s| == 8
  {
    Low(n, 8)
  }

  function StrBytes(s: Str): seq<Byte>
    requires |s.content| < WORD_END
  {
    WordBytes(|s.content|) + [s.isConst] + (s.content + [0])
  }

  function InstrBytes(i: Instr): seq<Byte> {
    [i.opc] + WordBytes(i.arg)
  }

  function ParamBytes(p: Param): seq<Byte> {
    WordBytes(p.name) + [p.isVarg]
  }

  /** One after the other. */
  ghost function Each<T(!new)>(enc: T --> seq<Byte>, xs: seq<T>): seq<Byte>
    requires forall x | x in xs :: enc.requires(x)
  {
    if xs == [] then [] else Each(enc, xs[..|xs| - 1]) + enc(xs[|xs| - 1])
  }

  predicate StrFits(s: Str) {
    |s.content| < WORD_END
  }

  predicate PoolFits(pool: seq<Str>) {
    |pool| < WORD_END && forall s | s in pool :: StrFits(s)
  }

  predicate CodeFits(c: Code) {
    |c.params| < WORD_END && |c.instrs| < WORD_END
  }

  ghost function PoolBytes(pool: seq<Str>): seq<Byte>
    requires PoolFits(pool)
  {
    WordBytes(|pool|) + Each(StrBytes, pool)
  }

  ghost function CodeBytes(c: Code): seq<Byte>
    requires CodeFits(c)
  {
    WordBytes(c.pool) + WordBytes(|c.instrs|) + (WordBytes(|c.params|) + Each(ParamBytes, c.params)) + Each(InstrBytes, c.instrs)
  }

  ghost predicate Fits(c: Contents) {
    && |c.pools| < WORD_END && |c.codes| < WORD_END
    && (forall p | p in c.pools :: PoolFits(p)) && (forall d | d in c.codes :: CodeFits(d))
  }

  const HEADER: seq<Byte> := [0x31, 0x31]

  ghost function FileBytes(c: Contents): seq<Byte>
    requires Fits(c)
  {
    HEADER + WordBytes(c.root) + (WordBytes(|c.pools|) + Each(PoolBytes, c.pools)) + (WordBytes(|c.codes|) + Each(CodeBytes, c.codes))
  }

  // ---------------------------------------------------------------------------
  // Reading

  /** What was read, and what is left. */
  datatype Read<T> = Read(value: T, rest: seq<Byte>)

  function Number(s: seq<Byte>): nat {
    if s == [] then 0 else s[0] + 256 * Number(s[1..])
  }

  lemma {:induction false} NumberBound(s: seq<Byte>)
    requires |s| == 8
    ensures Number(s) < WORD_END
  {
    assert forall t: seq<Byte> | |t| == 0 :: Number(t) == 0;
    var s1 := s[1..];
    var s2 := s1[1..];
    var s3 := s2[1..];
    var s4 := s3[1..];
    var s5 := s4[1..];
    var s6 := s5[1..];
    var s7 := s6[1..];
    assert Number(s7) < 0x100;
    assert Number(s6) < 0x1_0000;
    assert Number(s5) < 0x100_0000;
    assert Number(s4) < 0x1_0000_0000;
    assert Number(s3) < 0x100_0000_0000;
    assert Number(s2) < 0x1_0000_0000_0000;
    assert Number(s1) < 0x100_0000_0000_0000;
  }

  function ReadWord(s: seq<Byte>): Option<Read<Word>> {
    if |s| < 8 then None
    else
      NumberBound(s[..8]);
      Some(Read(Number(s[..8]), s[8..]))
  }

  function ReadStr(s: seq<Byte>): Option<Read<Str>> {
    match ReadWord(s)
    case None => None
    case Some(Read(len, r)) =>
      if |r| < 1 + (len + 1) then None else Some(Read(Str(r[1..1 + len], r[0]), r[1 + (len + 1)..]))
  }

  function ReadInstr(s: seq<Byte>): Option<Read<Instr>> {
    if s == [] then None
    else match ReadWord(s[1..])
      case None => None
      case Some(Read(arg, r)) => Some(Read(Instr(s[0], arg), r))
  }

  function ReadParam(s: seq<Byte>): Option<Read<Param>> {
    match ReadWord(s)
    case None => None
    case Some(Read(name, r)) => if r == [] then None else Some(Read(Param(name, r[0]), r[1..]))
  }

  /** `n` of them. */
  function ReadMany<T>(one: seq<Byte> -> Option<Read<T>>, n: nat, s: seq<Byte>): (r: Option<Read<seq<T>>>)
    ensures r.Some? ==> |r.value.value| == n
  {
    if n == 0 then Some(Read([], s))
    else match one(s)
      case None => None
      case Some(Read(x, r)) =>
        match ReadMany(one, n - 1, r)
        case None => None
        case Some(Read(xs, r')) => Some(Read([x] + xs, r'))
  }

  function ReadPool(s: seq<Byte>): Option<Read<seq<Str>>> {
    match ReadWord(s)
    case None => None
    case Some(Read(n, r)) => ReadMany(ReadStr, n, r)
  }

  function ReadParams(s: seq<Byte>): Option<Read<seq<Param>>> {
    match ReadWord(s)
    case None => None
    case Some(Read(n, r)) => ReadMany(ReadParam, n, r)
  }

  function ReadCode(s: seq<Byte>): Option<Read<Code>> {
    match ReadWord(s)
    case None => None
    case Some(Read(pool, r)) =>
      match ReadWord(r)
      case None => None
      case Some(Read(size, r1)) =>
        match ReadParams(r1)
        case None => None
        case Some(Read(params, r2)) =>
          match ReadMany(ReadInstr, size, r2)
          case None => None
          case Some(Read(instrs, r3)) => Some(Read(Code(pool, params, instrs), r3))
  }

  function ReadPools(s: seq<Byte>): Option<Read<seq<seq<Str>>>> {
    match ReadWord(s)
    case None => None
    case Some(Read(n, r)) => ReadMany(ReadPool, n, r)
  }

  /** Code that names a pool there is; anything else is turned down. */
  function ReadCodeOf(pools: nat): seq<Byte> -> Option<Read<Code>> {
    (s: seq<Byte>) =>
      match ReadCode(s)
      case None => None
      case Some(Read(c, r)) => if c.pool >= pools then None else Some(Read(c, r))
  }

  function ReadFile(s: seq<Byte>): Option<Contents> {
    if |s| < 2 || s[..2] != HEADER then None
    else match ReadWord(s[2..])
      case None => None
      case Some(Read(root, r)) =>
        match ReadPools(r)
        case None => None
        case Some(Read(pools, r1)) =>
          match ReadWord(r1)
          case None => None
          case Some(Read(n, r2)) =>
            match ReadMany(ReadCodeOf(|pools|), n, r2)
            case None => None
            case Some(Read(codes, _)) => Some(Contents(root, pools, codes))
  }

  // ---------------------------------------------------------------------------
  // There and back

  ghost function Power(k: nat): nat {
    if k == 0 then 1 else 256 * Power(k - 1)
  }

  lemma {:induction false} LowBack(n: nat, k: nat)
    requires n < Power(k)
    ensures Number(Low(n, k)) == n
    decreases k
  {
    if k > 0 {
      LowBack(n / 256, k - 1);
      assert Low(n, k)[1..] == Low(n / 256, k - 1);
    }
  }

  lemma WordBack(n: Word, t: seq<Byte>)
    ensures ReadWord(WordBytes(n) + t) == Some(Read(n, t))
  {
    assert Power(8) == WORD_END by {
      assert Power(4) == 0x1_0000_0000;
    }
    LowBack(n, 8);
    assert (WordBytes(n) + t)[..8] == WordBytes(n) && (WordBytes(n) + t)[8..] == t;
  }

  lemma StrBack(s: Str, t: seq<Byte>)
    requires StrFits(s)
    ensures ReadStr(StrBytes(s) + t) == Some(Read(s, t))
  {
    var r := [s.isConst] + (s.content + [0]) + t;
    assert StrBytes(s) + t == WordBytes(|s.content|) + r;
    WordBack(|s.content|, r);
    assert r[1..1 + |s.content|] == s.content && r[1 + (|s.content| + 1)..] == t;
  }

  lemma InstrBack(i: Instr, t: seq<Byte>)
    ensures ReadInstr(InstrBytes(i) + t) == Some(Read(i, t))
  {
    assert (InstrBytes(i) + t)[1..] == WordBytes(i.arg) + t;
    WordBack(i.arg, t);
  }

  lemma ParamBack(p: Param, t: seq<Byte>)
    ensures ReadParam(ParamBytes(p) + t) == Some(Read(p, t))
  {
    assert ParamBytes(p) + t == WordBytes(p.name) + ([p.isVarg] + t);
    WordBack(p.name, [p.isVarg] + t);
    assert ([p.isVarg] + t)[1..] == t;
  }

  /** Every one of them can be read back, whatever follows. */
  ghost predicate Back<T(!new)>(enc: T --> seq<Byte>, one: seq<Byte> -> Option<Read<T>>, xs: seq<T>) {
    forall x | x in xs :: enc.requires(x) && forall t :: one(enc(x) + t) == Some(Read(x, t))
  }

  lemma {:induction false} FirstOfEach<T(!new)>(enc: T --> seq<Byte>, xs: seq<T>)
    requires xs != [] && forall x | x in xs :: enc.requires(x)
    ensures Each(enc, xs) == enc(xs[0]) + Each(enc, xs[1..])
    decreases |xs|
  {
    if |xs| > 1 {
      var front := xs[..|xs| - 1];
      FirstOfEach(enc, front);
      assert front[1..] == xs[1..][..|xs| - 2];
    } else {
      assert Each(enc, xs[..0]) == [] && Each(enc, xs[1..]) == [];
    }
  }

  lemma {:induction false} ManyBack<T(!new)>(enc: T --> seq<Byte>, one: seq<Byte> -> Option<Read<T>>, xs: seq<T>, t: seq<Byte>)
    requires Back(enc, one, xs)
    ensures ReadMany(one, |xs|, Each(enc, xs) + t) == Some(Read(xs, t))
    decreases |xs|
  {
    if xs != [] {
      FirstOfEach(enc, xs);
      var more := Each(enc, xs[1..]) + t;
      assert Each(enc, xs) + t == enc(xs[0]) + more;
      ManyBack(enc, one, xs[1..], t);
      assert [xs[0]] + xs[1..] == xs;
    } else {
      assert Each(enc, xs) + t == t;
    }
  }

  lemma PoolBack(pool: seq<Str>, t: seq<Byte>)
    requires PoolFits(pool)
    ensures ReadPool(PoolBytes(pool) + t) == Some(Read(pool, t))
  {
    forall s, u | s in pool ensures ReadStr(StrBytes(s) + u) == Some(Read(s, u)) {
      StrBack(s, u);
    }
    var r := Each(StrBytes, pool) + t;
    assert PoolBytes(pool) + t == WordBytes(|pool|) + r;
    WordBack(|pool|, r);
    ManyBack(StrBytes, ReadStr, pool, t);
  }

  lemma ParamsBack(params: seq<Param>, t: seq<Byte>)
    requires |params| < WORD_END
    ensures ReadParams(WordBytes(|params|) + Each(ParamBytes, params) + t) == Some(Read(params, t))
  {
    hide ReadParam, ParamBytes, WordBytes, ReadWord, ReadMany, Each;
    forall p, u ensures ReadParam(ParamBytes(p) + u) == Some(Read(p, u)) {
      ParamBack(p, u);
    }
    assert Back(ParamBytes, ReadParam, params);
    hide Back;
    var all := Each(ParamBytes, params);
    Regroup(WordBytes(|params|), all, t);
    WordBack(|params|, all + t);
    ManyBack(ParamBytes, ReadParam, params, t);
  }

  lemma InstrsBack(instrs: seq<Instr>, t: seq<Byte>)
    ensures ReadMany(ReadInstr, |instrs|, Each(InstrBytes, instrs) + t) == Some(Read(instrs, t))
  {
    hide ReadInstr, InstrBytes;
    forall i, u ensures ReadInstr(InstrBytes(i) + u) == Some(Read(i, u)) {
      InstrBack(i, u);
    }
    ManyBack(InstrBytes, ReadInstr, instrs, t);
  }

  lemma CodeBack(c: Code, t: seq<Byte>)
    requires CodeFits(c)
    ensures ReadCode(CodeBytes(c) + t) == Some(Read(c, t))
  {
    hide ReadParams, WordBytes, ReadWord, ReadMany, Each;
    var instrs, params := Each(InstrBytes, c.instrs), WordBytes(|c.params|) + Each(ParamBytes, c.params);
    var r2 := instrs + t;
    var r1 := params + r2;
    var r := WordBytes(|c.instrs|) + r1;
    CodeParts(WordBytes(c.pool), WordBytes(|c.instrs|), params, instrs, t);
    WordBack(c.pool, r);
    WordBack(|c.instrs|, r1);
    ParamsBack(c.params, r2);
    InstrsBack(c.instrs, t);
  }

  lemma CodeParts(a: seq<Byte>, b: seq<Byte>, c: seq<Byte>, d: seq<Byte>, t: seq<Byte>)
    ensures a + b + c + d + t == a + (b + (c + (d + t)))
  {
  }

  lemma PoolsBack(pools: seq<seq<Str>>, t: seq<Byte>)
    requires |pools| < WORD_END && forall p | p in pools :: PoolFits(p)
    ensures ReadPools(WordBytes(|pools|) + Each(PoolBytes, pools) + t) == Some(Read(pools, t))
  {
    hide ReadPool, PoolBytes, WordBytes, ReadWord, PoolFits, ReadMany, Each;
    forall p, u | p in pools ensures ReadPool(PoolBytes(p) + u) == Some(Read(p, u)) {
      PoolBack(p, u);
    }
    assert Back(PoolBytes, ReadPool, pools);
    hide Back;
    var all := Each(PoolBytes, pools);
    Regroup(WordBytes(|pools|), all, t);
    WordBack(|pools|, all + t);
    ManyBack(PoolBytes, ReadPool, pools, t);
  }

  lemma Regroup(a: seq<Byte>, b: seq<Byte>, c: seq<Byte>)
    ensures a + b + c == a + (b + c)
  {
  }

  lemma CodesBack(codes: seq<Code>, pools: nat)
    requires forall d | d in codes :: CodeFits(d) && d.pool < pools
    ensures ReadMany(ReadCodeOf(pools), |codes|, Each(CodeBytes, codes)) == Some(Read(codes, []))
  {
    hide ReadCode, CodeBytes, CodeFits;
    forall d, u | d in codes ensures ReadCodeOf(pools)(CodeBytes(d) + u) == Some(Read(d, u)) {
      CodeBack(d, u);
    }
    assert Each(CodeBytes, codes) + [] == Each(CodeBytes, codes);
    ManyBack(CodeBytes, ReadCodeOf(pools), codes, []);
  }

  /** Reading what was written gives it back. */
  lemma FileBack(c: Contents)
    requires Fits(c) && forall d | d in c.codes :: d.pool < |c.pools|
    ensures ReadFile(FileBytes(c)) == Some(c)
  {
    hide ReadPools, ReadMany, ReadCodeOf, WordBytes, ReadWord, PoolBytes, CodeBytes, PoolFits, CodeFits, Each;
    var r1 := Each(CodeBytes, c.codes);
    var r0 := WordBytes(|c.codes|) + r1;
    var r := WordBytes(|c.pools|) + Each(PoolBytes, c.pools) + r0;
    assert FileBytes(c)[..2] == HEADER && FileBytes(c)[2..] == WordBytes(c.root) + r;
    WordBack(c.root, r);
    PoolsBack(c.pools, r0);
    WordBack(|c.codes|, r1);
    CodesBack(c.codes, |c.pools|);
  }
}
