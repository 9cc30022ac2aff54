/** Where in a cache file everything is, byte by byte, and that this is what is written. */
module CacheLayout {
  import opened Basics
  import opened CacheFormat

  // ---------------------------------------------------------------------------
  // The layout

  /** Byte `o`, as a number. */
  function At(b: seq<Byte>, o: nat): int
    requires o < |b|
  {
    b[o]
  }

  /** Eight bytes, the lowest first. */
  predicate WordAt(b: seq<Byte>, o: nat, n: nat) {
    && o + 8 <= |b|
    && n == At(b, o) + 0x100 * At(b, o + 1) + 0x1_0000 * At(b, o + 2) + 0x100_0000 * At(b, o + 3)
            + 0x1_0000_0000 * At(b, o + 4) + 0x100_0000_0000 * At(b, o + 5)
            + 0x1_0000_0000_0000 * At(b, o + 6) + 0x100_0000_0000_0000 * At(b, o + 7)
  }

  /** Length, flag, content, and a null character. */
  predicate StrAt(b: seq<Byte>, o: nat, s: Str) {
    && o + StrSize(s) <= |b| && WordAt(b, o, |s.content|) && b[o + 8] == s.isConst
    && (forall i | 0 <= i < |s.content| :: b[o + 9 + i] == s.content[i]) && b[o + 9 + |s.content|] == 0
  }

  function StrSize(s: Str): nat {
    10 + |s.content|
  }

  predicate ParamAt(b: seq<Byte>, o: nat, p: Param) {
    o + 9 <= |b| && WordAt(b, o, p.name) && b[o + 8] == p.isVarg
  }

  predicate InstrAt(b: seq<Byte>, o: nat, i: Instr) {
    o + 9 <= |b| && b[o] == i.opc && WordAt(b, o + 1, i.arg)
  }

  /** How many bytes `xs` take. */
  ghost function Total<T(!new)>(size: T -> nat, xs: seq<T>): nat {
    if xs == [] then 0 else Total(size, xs[..|xs| - 1]) + size(xs[|xs| - 1])
  }

  /** One right behind the other. */
  ghost predicate AllAt<T(!new)>(b: seq<Byte>, o: nat, at: (seq<Byte>, nat, T) -> bool, size: T -> nat, xs: seq<T>) {
    forall i: nat | i < |xs| :: ItemAt(b, o, at, size, xs, i)
  }

  ghost predicate ItemAt<T(!new)>(b: seq<Byte>, o: nat, at: (seq<Byte>, nat, T) -> bool, size: T -> nat, xs: seq<T>, i: nat)
    requires i < |xs|
  {
    at(b, o + Total(size, xs[..i]), xs[i])
  }

  ghost predicate PoolAt(b: seq<Byte>, o: nat, pool: seq<Str>) {
    WordAt(b, o, |pool|) && AllAt(b, o + 8, StrAt, StrSize, pool)
  }

  ghost function PoolSize(pool: seq<Str>): nat {
    8 + Total(StrSize, pool)
  }

  ghost predicate CodeAt(b: seq<Byte>, o: nat, c: Code) {
    && WordAt(b, o, c.pool) && WordAt(b, o + 8, |c.instrs|) && WordAt(b, o + 16, |c.params|)
    && (forall i | 0 <= i < |c.params| :: ParamAt(b, o + 24 + 9 * i, c.params[i]))
    && (forall i | 0 <= i < |c.instrs| :: InstrAt(b, o + 24 + 9 * |c.params| + 9 * i, c.instrs[i]))
  }

  function CodeSize(c: Code): nat {
    24 + 9 * |c.params| + 9 * |c.instrs|
  }

  ghost predicate FileAt(b: seq<Byte>, c: Contents) {
    var codes := 18 + Total(PoolSize, c.pools);
    && |b| == codes + 8 + Total(CodeSize, c.codes)
    && b[0] == 0x31 && b[1] == 0x31 && WordAt(b, 2, c.root)
    && WordAt(b, 10, |c.pools|) && AllAt(b, 18, PoolAt, PoolSize, c.pools)
    && WordAt(b, codes, |c.codes|) && AllAt(b, codes + 8, CodeAt, CodeSize, c.codes)
  }

  // ---------------------------------------------------------------------------
  // It is what is written

  predicate Sits(b: seq<Byte>, o: nat, s: seq<Byte>) {
    o + |s| <= |b| && b[o..o + |s|] == s
  }

  lemma SitsByte(b: seq<Byte>, o: nat, x: Byte)
    ensures Sits(b, o, [x]) <==> o < |b| && b[o] == x
  {
  }

  lemma SitsBoth(b: seq<Byte>, o: nat, s: seq<Byte>, t: seq<Byte>)
    ensures Sits(b, o, s + t) <==> Sits(b, o, s) && Sits(b, o + |s|, t)
  {
    if o + |s| + |t| <= |b| {
      assert b[o..o + |s + t|] == b[o..o + |s|] + b[o + |s|..o + |s| + |t|];
      if b[o..o + |s + t|] == s + t {
        assert b[o..o + |s|] == (s + t)[..|s|] && b[o + |s|..o + |s| + |t|] == (s + t)[|s|..];
      }
    }
  }

  lemma {:induction false} LowSits(b: seq<Byte>, o: nat, n: nat, k: nat)
    requires n < Power(k)
    ensures Sits(b, o, Low(n, k)) <==> o + k <= |b| && n == Number(b[o..o + k])
    decreases k
  {
    if k > 0 {
      var low: Byte, rest := n % 256, Low(n / 256, k - 1);
      assert Low(n, k) == [low] + rest;
      SitsBoth(b, o, [low], rest);
      SitsByte(b, o, low);
      LowSits(b, o + 1, n / 256, k - 1);
      hide Sits;
      if o + k <= |b| {
        NumberStep(b, o, k, n);
      }
    } else {
      assert o <= |b| ==> Number(b[o..o]) == 0;
    }
  }

  lemma NumberFirst(b: seq<Byte>, o: nat, e: nat)
    requires o < e <= |b|
    ensures Number(b[o..e]) == At(b, o) + 256 * Number(b[o + 1..e])
  {
    assert b[o..e][1..] == b[o + 1..e];
  }

  lemma NumberStep(b: seq<Byte>, o: nat, k: nat, n: nat)
    requires 0 < k && o + k <= |b|
    ensures n == Number(b[o..o + k]) <==> n % 256 == b[o] && n / 256 == Number(b[o + 1..o + 1 + (k - 1)])
  {
    NumberFirst(b, o, o + k);
    Digits(n, b[o], Number(b[o + 1..o + 1 + (k - 1)]));
  }

  lemma Digits(n: nat, low: nat, high: nat)
    requires low < 256
    ensures n == low + 256 * high <==> n % 256 == low && n / 256 == high
  {
  }

  lemma NumberOfEight(b: seq<Byte>, o: nat)
    requires o + 8 <= |b|
    ensures WordAt(b, o, Number(b[o..o + 8]))
  {
    var e := o + 8;
    NumberFirst(b, o, e);
    NumberFirst(b, o + 1, e);
    NumberFirst(b, o + 2, e);
    NumberFirst(b, o + 3, e);
    NumberFirst(b, o + 4, e);
    NumberFirst(b, o + 5, e);
    NumberFirst(b, o + 6, e);
    NumberFirst(b, o + 7, e);
    assert b[o + 8..e] == [];
    assert Number([]) == 0;
    hide Number, At;
  }

  lemma WordSits(b: seq<Byte>, o: nat, n: Word)
    ensures (Sits(b, o, WordBytes(n)) <==> WordAt(b, o, n)) && (WordAt(b, o, n) ==> o + 8 <= |b|)
  {
    assert Power(8) == WORD_END by {
      assert Power(4) == 0x1_0000_0000;
    }
    LowSits(b, o, n, 8);
    if o + 8 <= |b| {
      NumberOfEight(b, o);
    }
    hide Low, Number, Sits;
  }

  lemma StrSits(b: seq<Byte>, o: nat, s: Str)
    requires StrFits(s)
    ensures |StrBytes(s)| == StrSize(s) && (Sits(b, o, StrBytes(s)) <==> StrAt(b, o, s))
  {
    hide WordAt, WordBytes;
    WordSits(b, o, |s.content|);
    SitsBoth(b, o, WordBytes(|s.content|) + [s.isConst], s.content + [0]);
    SitsBoth(b, o, WordBytes(|s.content|), [s.isConst]);
    SitsBoth(b, o + 9, s.content, [0]);
    SitsByte(b, o + 8, s.isConst);
    SitsByte(b, o + 9 + |s.content|, 0);
    ContentSits(b, o + 9, s.content);
    hide Sits;
  }

  lemma ContentSits(b: seq<Byte>, o: nat, s: seq<Byte>)
    ensures Sits(b, o, s) <==> o + |s| <= |b| && forall i | 0 <= i < |s| :: b[o + i] == s[i]
  {
    if o + |s| <= |b| {
      var t := b[o..o + |s|];
      assert forall i | 0 <= i < |s| :: t[i] == b[o + i];
    }
  }

  lemma ParamSits(b: seq<Byte>, o: nat, p: Param)
    ensures |ParamBytes(p)| == 9 && (Sits(b, o, ParamBytes(p)) <==> ParamAt(b, o, p))
  {
    hide WordAt, WordBytes;
    WordSits(b, o, p.name);
    SitsBoth(b, o, WordBytes(p.name), [p.isVarg]);
    SitsByte(b, o + 8, p.isVarg);
    hide Sits;
  }

  lemma InstrSits(b: seq<Byte>, o: nat, i: Instr)
    ensures |InstrBytes(i)| == 9 && (Sits(b, o, InstrBytes(i)) <==> InstrAt(b, o, i))
  {
    hide WordAt, WordBytes;
    SitsBoth(b, o, [i.opc], WordBytes(i.arg));
    SitsByte(b, o, i.opc);
    WordSits(b, o + 1, i.arg);
    hide Sits;
  }

  /** Every one of them is written as laid out. */
  ghost predicate Written<T(!new)>(b: seq<Byte>, enc: T --> seq<Byte>, at: (seq<Byte>, nat, T) -> bool, size: T -> nat, xs: seq<T>) {
    forall x | x in xs :: enc.requires(x) && |enc(x)| == size(x) && forall o: nat :: Sits(b, o, enc(x)) <==> at(b, o, x)
  }

  lemma AllAtMore<T(!new)>(b: seq<Byte>, o: nat, at: (seq<Byte>, nat, T) -> bool, size: T -> nat, xs: seq<T>)
    requires xs != []
    ensures var front := xs[..|xs| - 1];
            AllAt(b, o, at, size, xs) <==> AllAt(b, o, at, size, front) && at(b, o + Total(size, front), xs[|xs| - 1])
  {
    hide Total;
    var front := xs[..|xs| - 1];
    forall i: nat | i < |front| ensures ItemAt(b, o, at, size, front, i) <==> ItemAt(b, o, at, size, xs, i) {
      assert front[..i] == xs[..i];
    }
    assert ItemAt(b, o, at, size, xs, |front|) <==> at(b, o + Total(size, front), xs[|front|]);
    hide ItemAt;
  }

  lemma {:induction false} EachSits<T(!new)>(b: seq<Byte>, o: nat, enc: T --> seq<Byte>, at: (seq<Byte>, nat, T) -> bool, size: T -> nat, xs: seq<T>)
    requires Written(b, enc, at, size, xs) && o <= |b|
    ensures (forall x | x in xs :: enc.requires(x)) && |Each(enc, xs)| == Total(size, xs)
    ensures Sits(b, o, Each(enc, xs)) <==> AllAt(b, o, at, size, xs)
    decreases |xs|
  {
    hide AllAt, Sits;
    if xs == [] {
      assert AllAt(b, o, at, size, xs) by { NoneAt(b, o, at, size, xs); }
      assert Sits(b, o, []) by { NothingSits(b, o); }
    } else {
      var front, last := xs[..|xs| - 1], xs[|xs| - 1];
      assert last in xs;
      EachSits(b, o, enc, at, size, front);
      SitsBoth(b, o, Each(enc, front), enc(last));
      AllAtMore(b, o, at, size, xs);
    }
  }

  lemma NoneAt<T(!new)>(b: seq<Byte>, o: nat, at: (seq<Byte>, nat, T) -> bool, size: T -> nat, xs: seq<T>)
    requires xs == []
    ensures AllAt(b, o, at, size, xs)
  {
  }

  lemma NothingSits(b: seq<Byte>, o: nat)
    requires o <= |b|
    ensures Sits(b, o, [])
  {
  }

  lemma PoolSits(b: seq<Byte>, o: nat, pool: seq<Str>)
    requires PoolFits(pool)
    ensures |PoolBytes(pool)| == PoolSize(pool) && (Sits(b, o, PoolBytes(pool)) <==> PoolAt(b, o, pool))
  {
    hide WordAt, WordBytes, Sits, StrAt, StrBytes, AllAt, Each, Total, StrSize;
    forall s | s in pool ensures |StrBytes(s)| == StrSize(s) && forall o: nat :: Sits(b, o, StrBytes(s)) <==> StrAt(b, o, s) {
      forall o: nat ensures |StrBytes(s)| == StrSize(s) && (Sits(b, o, StrBytes(s)) <==> StrAt(b, o, s)) {
        StrSits(b, o, s);
      }
      StrSits(b, o, s);
    }
    WordSits(b, o, |pool|);
    SitsBoth(b, o, WordBytes(|pool|), Each(StrBytes, pool));
    ListSits(b, o + 8, StrBytes, StrAt, StrSize, pool);
  }

  /** Also behind the end, if there is nothing to lay out there. */
  lemma ListSits<T(!new)>(b: seq<Byte>, o: nat, enc: T --> seq<Byte>, at: (seq<Byte>, nat, T) -> bool, size: T -> nat, xs: seq<T>)
    requires Written(b, enc, at, size, xs)
    ensures (forall x | x in xs :: enc.requires(x)) && |Each(enc, xs)| == Total(size, xs)
    ensures o <= |b| ==> (Sits(b, o, Each(enc, xs)) <==> AllAt(b, o, at, size, xs))
  {
    hide AllAt, Sits, Each, Total;
    if o <= |b| {
      EachSits(b, o, enc, at, size, xs);
    }
    EachSits(b, 0, enc, at, size, xs);
  }

  lemma {:induction false} ParamsSit(b: seq<Byte>, o: nat, params: seq<Param>)
    requires o <= |b|
    ensures |Each(ParamBytes, params)| == 9 * |params|
    ensures Sits(b, o, Each(ParamBytes, params)) <==> forall i | 0 <= i < |params| :: ParamAt(b, o + 9 * i, params[i])
    decreases |params|
  {
    hide ParamAt, ParamBytes, Sits;
    if params == [] {
      NothingSits(b, o);
    } else {
      var front, last := params[..|params| - 1], params[|params| - 1];
      ParamsSit(b, o, front);
      SitsBoth(b, o, Each(ParamBytes, front), ParamBytes(last));
      ParamSits(b, o + 9 * |front|, last);
      assert forall i | 0 <= i < |front| :: front[i] == params[i];
    }
  }

  lemma {:induction false} InstrsSit(b: seq<Byte>, o: nat, instrs: seq<Instr>)
    requires o <= |b|
    ensures |Each(InstrBytes, instrs)| == 9 * |instrs|
    ensures Sits(b, o, Each(InstrBytes, instrs)) <==> forall i | 0 <= i < |instrs| :: InstrAt(b, o + 9 * i, instrs[i])
    decreases |instrs|
  {
    hide InstrAt, InstrBytes, Sits;
    if instrs == [] {
      NothingSits(b, o);
    } else {
      var front, last := instrs[..|instrs| - 1], instrs[|instrs| - 1];
      InstrsSit(b, o, front);
      SitsBoth(b, o, Each(InstrBytes, front), InstrBytes(last));
      InstrSits(b, o + 9 * |front|, last);
      assert forall i | 0 <= i < |front| :: front[i] == instrs[i];
    }
  }

  lemma CodeSits(b: seq<Byte>, o: nat, c: Code)
    requires CodeFits(c)
    ensures |CodeBytes(c)| == CodeSize(c) && (Sits(b, o, CodeBytes(c)) <==> CodeAt(b, o, c))
  {
    hide WordAt, WordBytes, Sits, ParamAt, ParamBytes, InstrAt, InstrBytes, Each;
    var params, instrs := Each(ParamBytes, c.params), Each(InstrBytes, c.instrs);
    WordSits(b, o, c.pool);
    WordSits(b, o + 8, |c.instrs|);
    WordSits(b, o + 16, |c.params|);
    SitsBoth(b, o, WordBytes(c.pool) + WordBytes(|c.instrs|) + (WordBytes(|c.params|) + params), instrs);
    SitsBoth(b, o, WordBytes(c.pool) + WordBytes(|c.instrs|), WordBytes(|c.params|) + params);
    SitsBoth(b, o, WordBytes(c.pool), WordBytes(|c.instrs|));
    SitsBoth(b, o + 16, WordBytes(|c.params|), params);
    ParamsSit(b, if o + 24 <= |b| then o + 24 else 0, c.params);
    SitsInside(b, o + 24, params);
    InstrsSit(b, if o + 24 + |params| <= |b| then o + 24 + |params| else 0, c.instrs);
  }

  lemma SitsInside(b: seq<Byte>, o: nat, s: seq<Byte>)
    ensures Sits(b, o, s) ==> o + |s| <= |b|
  {
  }

  /** A file is laid out like this exactly if it is the one that is written. */
  lemma LaidOut(b: seq<Byte>, c: Contents)
    requires Fits(c)
    ensures FileAt(b, c) <==> b == FileBytes(c)
  {
    hide WordAt, WordBytes, Sits, PoolAt, PoolBytes, CodeAt, CodeBytes, Each, AllAt, Total, PoolSize, CodeSize, PoolFits, CodeFits;
    forall p | p in c.pools ensures |PoolBytes(p)| == PoolSize(p) && forall o: nat :: Sits(b, o, PoolBytes(p)) <==> PoolAt(b, o, p) {
      forall o: nat ensures |PoolBytes(p)| == PoolSize(p) && (Sits(b, o, PoolBytes(p)) <==> PoolAt(b, o, p)) {
        PoolSits(b, o, p);
      }
      PoolSits(b, 0, p);
    }
    forall d | d in c.codes ensures |CodeBytes(d)| == CodeSize(d) && forall o: nat :: Sits(b, o, CodeBytes(d)) <==> CodeAt(b, o, d) {
      forall o: nat ensures |CodeBytes(d)| == CodeSize(d) && (Sits(b, o, CodeBytes(d)) <==> CodeAt(b, o, d)) {
        CodeSits(b, o, d);
      }
      CodeSits(b, 0, d);
    }
    var pools, codes := Each(PoolBytes, c.pools), Each(CodeBytes, c.codes);
    var at := 18 + |pools|;
    ListSits(b, 18, PoolBytes, PoolAt, PoolSize, c.pools);
    ListSits(b, at + 8, CodeBytes, CodeAt, CodeSize, c.codes);
    WordSits(b, 2, c.root);
    WordSits(b, 10, |c.pools|);
    WordSits(b, at, |c.codes|);
    FileParts(b, WordBytes(c.root), WordBytes(|c.pools|), pools, WordBytes(|c.codes|), codes);
    SitsInside(b, 18, pools);
  }

  lemma FileParts(b: seq<Byte>, root: seq<Byte>, n: seq<Byte>, pools: seq<Byte>, m: seq<Byte>, codes: seq<Byte>)
    requires |root| == |n| == |m| == 8
    ensures b == HEADER + root + (n + pools) + (m + codes)
      <==> |b| == 18 + |pools| + 8 + |codes| && b[0] == 0x31 && b[1] == 0x31 && Sits(b, 2, root) && Sits(b, 10, n) && Sits(b, 18, pools)
           && Sits(b, 18 + |pools|, m) && Sits(b, 26 + |pools|, codes)
  {
    var file := HEADER + root + (n + pools) + (m + codes);
    assert b == file <==> |b| == |file| && Sits(b, 0, file) by {
      assert |b| == |file| ==> b[0..0 + |file|] == b;
    }
    SitsBoth(b, 0, HEADER + root + (n + pools), m + codes);
    SitsBoth(b, 0, HEADER + root, n + pools);
    SitsBoth(b, 0, HEADER, root);
    SitsBoth(b, 10, n, pools);
    SitsBoth(b, 18 + |pools|, m, codes);
    ContentSits(b, 0, HEADER);
    hide Sits;
  }
}
