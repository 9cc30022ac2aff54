/** JSON texts: what the printer writes and what the parser makes of a text, as functions,
    and that the one undoes the other. */
module JsonText {
  import opened Basics

  /** A value as far as JSON can tell.  A number is the text it is written as. */
  datatype Value = Null | Str(s: string) | Num(lexeme: string) | List(elems: seq<Value>) | Obj(fields: seq<Field>)

  /** A slot of an object, in the order of its slot table. */
  datatype Field = Field(key: string, val: Value)

  const MAX_RECUR: nat := 1024

  const NUL: char := '\0'
  const BEL: char := '\U{7}'
  const BS: char := '\U{8}'
  const VT: char := '\U{b}'
  const FF: char := '\U{c}'

  // ---------------------------------------------------------------------------
  // Printing

  function EscChar(c: char): string {
    if c == '"' || c == '\\' || c == '/' then ['\\', c]
    else if c == BS then ['\\', 'b']
    else if c == FF then ['\\', 'f']
    else if c == '\n' then ['\\', 'n']
    else if c == '\r' then ['\\', 'r']
    else if c == '\t' then ['\\', 't']
    else [c]
  }

  function Escaped(s: string): string {
    if s == [] then [] else Escaped(s[..|s| - 1]) + EscChar(s[|s| - 1])
  }

  function Quoted(s: string): string {
    ['"'] + Escaped(s) + ['"']
  }

  function Enc(v: Value): string
    decreases v
  {
    match v
    case Null => "null"
    case Str(s) => Quoted(s)
    case Num(lexeme) => lexeme
    case List(elems) => "[" + ListRest(v, 0)
    case Obj(fields) => "{" + ObjRest(v, 0)
  }

  /** What follows the first `k` elements of a list. */
  function ListRest(v: Value, k: nat): string
    requires v.List? && k <= |v.elems|
    decreases v, |v.elems| - k + 1
  {
    if k == |v.elems| then "]"
    else (if k > 0 then "," else "") + Enc(v.elems[k]) + ListRest(v, k + 1)
  }

  function ObjRest(v: Value, k: nat): string
    requires v.Obj? && k <= |v.fields|
    decreases v, |v.fields| - k + 1
  {
    if k == |v.fields| then "}"
    else (if k > 0 then "," else "") + Quoted(v.fields[k].key) + ":" + Enc(v.fields[k].val) + ObjRest(v, k + 1)
  }

  // ---------------------------------------------------------------------------
  // Reading strings

  predicate IsSpace(c: char) {
    c == '\t' || c == ' ' || c == '\r' || c == '\n'
  }

  predicate IsDec(c: char) { '0' <= c <= '9' }
  predicate IsOct(c: char) { '0' <= c <= '7' }
  predicate IsHex(c: char) { '0' <= c <= '9' || 'a' <= c <= 'f' || 'A' <= c <= 'F' }

  function Digit(c: char): nat
    requires IsHex(c)
  {
    if '0' <= c <= '9' then (c - '0') as nat
    else if 'a' <= c <= 'f' then (c - 'a') as nat + 10
    else (c - 'A') as nat + 10
  }

  datatype Radix = Hex | Dec | Oct

  predicate IsDigit(r: Radix, c: char) {
    match r case Hex => IsHex(c) case Dec => IsDec(c) case Oct => IsOct(c)
  }

  function Base(r: Radix): nat {
    match r case Hex => 16 case Dec => 10 case Oct => 8
  }

  /** How many of the next `max` characters are digits. */
  function Run(r: Radix, s: string, i: nat, max: nat): (n: nat)
    requires i <= |s|
    ensures n <= max && i + n <= |s|
    decreases max
  {
    if max == 0 || i == |s| || !IsDigit(r, s[i]) then 0 else 1 + Run(r, s, i + 1, max - 1)
  }

  function Number(r: Radix, s: string): nat
    requires forall j | 0 <= j < |s| :: IsHex(s[j])
  {
    if s == [] then 0 else Number(r, s[..|s| - 1]) * Base(r) + Digit(s[|s| - 1])
  }

  lemma {:induction false} RunDigits(r: Radix, s: string, i: nat, max: nat)
    requires i <= |s|
    ensures forall j | i <= j < i + Run(r, s, i, max) :: IsDigit(r, s[j])
    decreases max
  {
    if max > 0 && i < |s| && IsDigit(r, s[i]) {
      RunDigits(r, s, i + 1, max - 1);
    }
  }

  /** The number written in the digits at `i`. */
  function RunValue(r: Radix, s: string, i: nat, max: nat): nat
    requires i <= |s|
  {
    RunDigits(r, s, i, max);
    Number(r, s[i..i + Run(r, s, i, max)])
  }

  function Byte(n: nat): char {
    (n % 256) as char
  }

  /** The character a one-letter escape stands for. */
  function Simple(c: char): Option<char> {
    if c == 'a' then Some(BEL) else if c == 'b' then Some(BS) else if c == 'f' then Some(FF)
    else if c == 'n' then Some('\n') else if c == 'r' then Some('\r') else if c == 't' then Some('\t')
    else if c == 'v' then Some(VT) else if c == '\\' || c == '"' || c == '\'' then Some(c)
    else None
  }

  function Prepend(p: string, r: Option<string>): Option<string> {
    match r case None => None case Some(s) => Some(p + s)
  }

  /** Escapes with digits: the radix, how many digits, and whether the value is a code
      point, to be written in UTF-8. */
  datatype NumEsc = NumEsc(radix: Radix, max: nat, point: bool)

  function NumericEsc(c: char): Option<NumEsc> {
    if c == 'x' || c == 'X' then Some(NumEsc(Hex, 2, false))
    else if c == 'd' || c == 'D' then Some(NumEsc(Dec, 3, false))
    else if c == 'u' || c == 'U' then Some(NumEsc(Hex, 8, true))
    else if c == 'o' || c == 'O' then Some(NumEsc(Oct, 3, false))
    else None
  }

  /** The text between two quotes with its escapes replaced, from `i` on. */
  function Unescape(utf8: nat -> Option<string>, s: string, i: nat): Option<string>
    requires i <= |s|
    decreases |s| - i
  {
    if i == |s| then Some("")
    else if s[i] == '\\' && i + 1 < |s| then
      var c := s[i + 1];
      if Simple(c).Some? then Prepend([Simple(c).value], Unescape(utf8, s, i + 2))
      else if NumericEsc(c).Some? then
        var e := NumericEsc(c).value;
        var n := Run(e.radix, s, i + 2, e.max);
        if n == 0 then None
        else
          var code := RunValue(e.radix, s, i + 2, e.max);
          var text := if e.point then utf8(code) else Some([Byte(code)]);
          if text.None? then None else Prepend(text.value, Unescape(utf8, s, i + 2 + n))
      else
        var n := Run(Oct, s, i + 1, 3);
        if n > 0 then Prepend([Byte(RunValue(Oct, s, i + 1, 3))], Unescape(utf8, s, i + 1 + n))
        else Prepend([c], Unescape(utf8, s, i + 2))
    else Prepend([s[i]], Unescape(utf8, s, i + 1))
  }

  /** Strings end at the first null character. */
  function Cut(s: string): string {
    if s == [] || s[0] == NUL then [] else [s[0]] + Cut(s[1..])
  }

  // ---------------------------------------------------------------------------
  // Parsing

  /** Numbers whose text converts, and how code points are encoded. */
  datatype Env = Env(numOk: string -> bool, utf8: nat -> Option<string>)

  function SkipSpace(src: string, i: nat): (j: nat)
    requires i <= |src|
    ensures i <= j <= |src| && (j < |src| ==> !IsSpace(src[j]))
    decreases |src| - i
  {
    if i < |src| && IsSpace(src[i]) then SkipSpace(src, i + 1) else i
  }

  /** Where the string ends that is open at `i`: at the next quote without a backslash. */
  function Closing(src: string, i: nat, esc: bool): (j: nat)
    requires i <= |src|
    ensures i <= j <= |src| && (j < |src| ==> src[j] == '"')
    decreases |src| - i
  {
    if i == |src| then i
    else if src[i] == '"' && !esc then i
    else Closing(src, i + 1, src[i] == '\\' && !esc)
  }

  function ParseString(env: Env, src: string, i: nat): (r: Option<(string, nat)>)
    requires i <= |src|
    ensures r.Some? ==> i < r.value.1 <= |src|
  {
    var j := SkipSpace(src, i);
    if j == |src| || src[j] != '"' then None
    else
      var k := Closing(src, j + 1, false);
      if k == |src| then None
      else match Unescape(env.utf8, src[j + 1..k], 0)
        case None => None
        case Some(s) => Some((Cut(s), k + 1))
  }

  predicate IsNumStart(c: char) {
    IsDec(c) || c == '-' || c == '+'
  }

  predicate IsNumChar(c: char) {
    IsNumStart(c) || c == '.' || c == 'e' || c == 'E'
  }

  function NumEnd(src: string, i: nat): (j: nat)
    requires i <= |src|
    ensures i <= j <= |src|
    decreases |src| - i
  {
    if i < |src| && IsNumChar(src[i]) then NumEnd(src, i + 1) else i
  }

  function ParseNumber(env: Env, src: string, i: nat): (r: Option<(Value, nat)>)
    requires i <= |src|
    ensures r.Some? ==> i < r.value.1 <= |src|
  {
    var j := SkipSpace(src, i);
    if j == |src| || !IsNumStart(src[j]) then None
    else
      var k := NumEnd(src, j + 1);
      if env.numOk(src[j..k]) then Some((Num(src[j..k]), k)) else None
  }

  predicate StartsAt(src: string, i: nat, text: string) {
    i + |text| <= |src| && src[i..i + |text|] == text
  }

  function ParseConst(src: string, i: nat): (r: Option<(Value, nat)>)
    requires i <= |src|
    ensures r.Some? ==> i < r.value.1 <= |src|
  {
    var j := SkipSpace(src, i);
    if StartsAt(src, j, "true") then Some((Num("1"), j + 4))
    else if StartsAt(src, j, "false") then Some((Num("0"), j + 5))
    else if StartsAt(src, j, "null") then Some((Null, j + 4))
    else None
  }

  function ParseValue(env: Env, src: string, i: nat, recur: nat): (r: Option<(Value, nat)>)
    requires i <= |src|
    ensures r.Some? ==> i < r.value.1 <= |src|
    decreases MAX_RECUR + 2 - recur, |src| - i, 0
  {
    if recur >= MAX_RECUR then None
    else
      var o := ParseObject(env, src, i, recur + 1);
      if o.Some? then o
      else
        var a := ParseArray(env, src, i, recur + 1);
        if a.Some? then a
        else
          var s := ParseString(env, src, i);
          if s.Some? then Some((Str(s.value.0), s.value.1))
          else
            var n := ParseNumber(env, src, i);
            if n.Some? then n else ParseConst(src, i)
  }

  function ParseArray(env: Env, src: string, i: nat, recur: nat): (r: Option<(Value, nat)>)
    requires i <= |src| && recur <= MAX_RECUR
    ensures r.Some? ==> i < r.value.1 <= |src|
    decreases MAX_RECUR + 2 - recur, |src| - i, 1
  {
    var j := SkipSpace(src, i);
    if j == |src| || src[j] != '[' then None else Elements(env, src, j + 1, recur, [])
  }

  /** The rest of a list, its first elements being `acc`. */
  function Elements(env: Env, src: string, i: nat, recur: nat, acc: seq<Value>): (r: Option<(Value, nat)>)
    requires i <= |src| && recur <= MAX_RECUR
    ensures r.Some? ==> i < r.value.1 <= |src|
    decreases MAX_RECUR + 2 - recur, |src| - i, 0
  {
    match ParseValue(env, src, i, recur + 1)
    case None => CloseList(src, i, acc)
    case Some(p) =>
      var k := SkipSpace(src, p.1);
      if k < |src| && src[k] == ',' then Elements(env, src, k + 1, recur, acc + [p.0])
      else CloseList(src, k, acc + [p.0])
  }

  function CloseList(src: string, i: nat, acc: seq<Value>): (r: Option<(Value, nat)>)
    requires i <= |src|
    ensures r.Some? ==> i < r.value.1 <= |src|
  {
    var j := SkipSpace(src, i);
    if j < |src| && src[j] == ']' then Some((List(acc), j + 1)) else None
  }

  function ParseObject(env: Env, src: string, i: nat, recur: nat): (r: Option<(Value, nat)>)
    requires i <= |src| && recur <= MAX_RECUR
    ensures r.Some? ==> i < r.value.1 <= |src|
    decreases MAX_RECUR + 2 - recur, |src| - i, 1
  {
    var j := SkipSpace(src, i);
    if j == |src| || src[j] != '{' then None else Members(env, src, j + 1, recur, [])
  }

  /** A slot is set: in place if the key is there already. */
  function SetField(fields: seq<Field>, key: string, v: Value): (r: seq<Field>)
    ensures |r| <= |fields| + 1
  {
    if fields == [] then [Field(key, v)]
    else if fields[0].key == key then [Field(key, v)] + fields[1..]
    else [fields[0]] + SetField(fields[1..], key, v)
  }

  function Members(env: Env, src: string, i: nat, recur: nat, acc: seq<Field>): (r: Option<(Value, nat)>)
    requires i <= |src| && recur <= MAX_RECUR
    ensures r.Some? ==> i < r.value.1 <= |src|
    decreases MAX_RECUR + 2 - recur, |src| - i, 0
  {
    match ParseString(env, src, i)
    case None => CloseObject(src, i, acc)
    case Some(key) =>
      var c := SkipSpace(src, key.1);
      if c == |src| || src[c] != ':' then None
      else match ParseValue(env, src, c + 1, recur + 1)
        case None => CloseObject(src, c + 1, acc)
        case Some(p) =>
          var k := SkipSpace(src, p.1);
          if k < |src| && src[k] == ',' then Members(env, src, k + 1, recur, SetField(acc, key.0, p.0))
          else CloseObject(src, k, SetField(acc, key.0, p.0))
  }

  function CloseObject(src: string, i: nat, acc: seq<Field>): (r: Option<(Value, nat)>)
    requires i <= |src|
    ensures r.Some? ==> i < r.value.1 <= |src|
  {
    var j := SkipSpace(src, i);
    if j < |src| && src[j] == '}' then Some((Obj(acc), j + 1)) else None
  }

  /** A whole text: one value, and nothing but space around it. */
  function Decode(env: Env, src: string): Option<Value> {
    match ParseValue(env, src, 0, 0)
    case None => None
    case Some(p) => if SkipSpace(src, p.1) == |src| then Some(p.0) else None
  }

  // ---------------------------------------------------------------------------
  // What is printed is read back

  predicate NulFreeText(s: string) {
    forall i | 0 <= i < |s| :: s[i] != NUL
  }

  /** No string and no key contains a null character. */
  predicate NulFree(v: Value) {
    match v
    case Null => true
    case Num(_) => true
    case Str(s) => NulFreeText(s)
    case List(elems) => forall i | 0 <= i < |elems| :: NulFree(elems[i])
    case Obj(fields) => forall i | 0 <= i < |fields| :: NulFreeText(fields[i].key) && NulFree(fields[i].val)
  }

  predicate Distinct(fields: seq<Field>) {
    forall i, j | 0 <= i < j < |fields| :: fields[i].key != fields[j].key
  }

  /** What an object of the VM looks like: keys are distinct, numbers print as numbers. */
  predicate WellFormed(env: Env, v: Value) {
    match v
    case Null => true
    case Num(lexeme) => lexeme != [] && IsNumStart(lexeme[0]) && (forall i | 0 <= i < |lexeme| :: IsNumChar(lexeme[i])) && env.numOk(lexeme)
    case Str(_) => true
    case List(elems) => forall i | 0 <= i < |elems| :: WellFormed(env, elems[i])
    case Obj(fields) => Distinct(fields) && forall i | 0 <= i < |fields| :: WellFormed(env, fields[i].val)
  }

  /** How many containers deep the deepest value lies. */
  function Height(v: Value): nat
    decreases v
  {
    match v
    case List(elems) => HeightOfList(v, 0)
    case Obj(fields) => HeightOfObj(v, 0)
    case _ => 0
  }

  function HeightOfList(v: Value, k: nat): nat
    requires v.List? && k <= |v.elems|
    decreases v, |v.elems| - k
  {
    if k == |v.elems| then 0 else Max(1 + Height(v.elems[k]), HeightOfList(v, k + 1))
  }

  function HeightOfObj(v: Value, k: nat): nat
    requires v.Obj? && k <= |v.fields|
    decreases v, |v.fields| - k
  {
    if k == |v.fields| then 0 else Max(1 + Height(v.fields[k].val), HeightOfObj(v, k + 1))
  }

  function Max(a: nat, b: nat): nat {
    if a < b then b else a
  }

  /** The parser does not run out of recursion on `v`. */
  predicate Fits(v: Value, recur: nat)
    decreases v
  {
    && recur < MAX_RECUR
    && match v
       case List(elems) => forall i | 0 <= i < |elems| :: Fits(elems[i], recur + 2)
       case Obj(fields) => forall i | 0 <= i < |fields| :: Fits(fields[i].val, recur + 2)
       case _ => true
  }

  lemma {:induction false} FitsHeight(v: Value, recur: nat)
    ensures Fits(v, recur) <==> recur + 2 * Height(v) < MAX_RECUR
    decreases v
  {
    if v.List? {
      FitsHeightList(v, 0, recur);
    } else if v.Obj? {
      FitsHeightObj(v, 0, recur);
    }
  }

  lemma {:induction false} FitsHeightList(v: Value, k: nat, recur: nat)
    requires v.List? && k <= |v.elems|
    ensures recur < MAX_RECUR && (forall i | k <= i < |v.elems| :: Fits(v.elems[i], recur + 2)) <==> recur + 2 * HeightOfList(v, k) < MAX_RECUR
    decreases v, |v.elems| - k
  {
    if k < |v.elems| {
      FitsHeight(v.elems[k], recur + 2);
      FitsHeightList(v, k + 1, recur);
    }
  }

  lemma {:induction false} FitsHeightObj(v: Value, k: nat, recur: nat)
    requires v.Obj? && k <= |v.fields|
    ensures recur < MAX_RECUR && (forall i | k <= i < |v.fields| :: Fits(v.fields[i].val, recur + 2)) <==> recur + 2 * HeightOfObj(v, k) < MAX_RECUR
    decreases v, |v.fields| - k
  {
    if k < |v.fields| {
      FitsHeight(v.fields[k].val, recur + 2);
      FitsHeightObj(v, k + 1, recur);
    }
  }

  lemma Split(src: string, i: nat, a: string, b: string)
    requires StartsAt(src, i, a + b)
    ensures StartsAt(src, i, a) && StartsAt(src, i + |a|, b)
  {
    var t := src[i..i + |a + b|];
    assert t[..|a|] == a && t[|a|..] == b;
    assert src[i..i + |a|] == t[..|a|];
    assert src[i + |a|..i + |a| + |b|] == t[|a|..];
  }

  lemma ThreeParts(a: string, b: string, c: string)
    ensures a + b + c == a + (b + c)
  {
  }

  lemma FrontAndRest(t: string, i: nat, a: string, b: string)
    requires i <= |t| && t[i..] == a + b
    ensures i + |a| <= |t| && t[i..i + |a|] == a && t[i + |a|..] == b
  {
    assert t[i..][..|a|] == a && t[i..][|a|..] == b;
  }

  lemma {:induction false} EscapedFront(s: string)
    requires s != []
    ensures Escaped(s) == EscChar(s[0]) + Escaped(s[1..])
  {
    if |s| > 1 {
      EscapedFront(s[..|s| - 1]);
      assert s[..|s| - 1][1..] == s[1..][..|s| - 2];
    } else {
      assert s[..0] == [] && s[1..] == [];
    }
  }

  lemma CharAt(src: string, i: nat, text: string, j: nat)
    requires StartsAt(src, i, text) && j < |text|
    ensures i + j < |src| && src[i + j] == text[j]
  {
    assert src[i..i + |text|][j] == src[i + j];
  }

  lemma ClosingStep(src: string, i: nat, c: char)
    requires StartsAt(src, i, EscChar(c))
    ensures i + |EscChar(c)| <= |src| && Closing(src, i, false) == Closing(src, i + |EscChar(c)|, false)
  {
    CharAt(src, i, EscChar(c), 0);
    if |EscChar(c)| == 2 {
      CharAt(src, i, EscChar(c), 1);
      assert Closing(src, i, false) == Closing(src, i + 1, true) == Closing(src, i + 2, false);
    }
  }

  lemma ClosingFront(src: string, i: nat, s: string)
    requires s != [] && StartsAt(src, i, Escaped(s) + ['"'])
    ensures var e, rest := EscChar(s[0]), Escaped(s[1..]);
            && Escaped(s) == e + rest && i + |e| <= |src| && StartsAt(src, i + |e|, rest + ['"'])
            && Closing(src, i, false) == Closing(src, i + |e|, false)
  {
    hide StartsAt, Closing, EscChar, Escaped;
    EscapedFront(s);
    var e, rest := EscChar(s[0]), Escaped(s[1..]);
    ThreeParts(e, rest, ['"']);
    Split(src, i, e, rest + ['"']);
    ClosingStep(src, i, s[0]);
  }

  /** The quote that closes an escaped text is the one behind it. */
  lemma {:induction false} ClosingEscaped(src: string, i: nat, s: string)
    requires StartsAt(src, i, Escaped(s) + ['"'])
    ensures i <= |src| && Closing(src, i, false) == i + |Escaped(s)|
    decreases |s|
  {
    if s == [] {
      assert Escaped(s) + ['"'] == ['"'];
      CharAt(src, i, ['"'], 0);
    } else {
      hide StartsAt, Closing, EscChar, Escaped;
      ClosingFront(src, i, s);
      ClosingEscaped(src, i + |EscChar(s[0])|, s[1..]);
    }
  }

  lemma UnescapeOne(utf8: nat -> Option<string>, t: string, i: nat, c: char)
    requires i < |t| && t[i] == c && EscChar(c) == [c]
    ensures Unescape(utf8, t, i) == Prepend([c], Unescape(utf8, t, i + 1))
  {
    hide Run, RunValue, NumericEsc;
  }

  lemma UnescapeTwo(utf8: nat -> Option<string>, t: string, i: nat, c: char)
    requires i + 1 < |t| && [t[i], t[i + 1]] == EscChar(c)
    ensures Unescape(utf8, t, i) == Prepend([c], Unescape(utf8, t, i + 2))
  {
    assert t[i] == EscChar(c)[0] && t[i + 1] == EscChar(c)[1];
    if c == '/' {
      assert Run(Oct, t, i + 1, 3) == 0;
    }
    hide Run, RunValue;
  }

  lemma UnescapeStep(utf8: nat -> Option<string>, t: string, i: nat, c: char)
    requires i + |EscChar(c)| <= |t| && t[i..i + |EscChar(c)|] == EscChar(c)
    ensures Unescape(utf8, t, i) == Prepend([c], Unescape(utf8, t, i + |EscChar(c)|))
  {
    hide Unescape, Prepend;
    var e := EscChar(c);
    assert t[i] == t[i..i + |e|][0];
    if |e| == 2 {
      assert t[i + 1] == t[i..i + |e|][1];
      UnescapeTwo(utf8, t, i, c);
    } else {
      UnescapeOne(utf8, t, i, c);
    }
  }

  /** Escaping is undone. */
  lemma {:induction false} UnescapeEscaped(utf8: nat -> Option<string>, t: string, i: nat, s: string)
    requires i <= |t| && t[i..] == Escaped(s)
    ensures Unescape(utf8, t, i) == Some(s)
    decreases |s|
  {
    if s != [] {
      EscapedFront(s);
      hide Unescape, EscChar, Escaped;
      var e, rest := EscChar(s[0]), Escaped(s[1..]);
      FrontAndRest(t, i, e, rest);
      UnescapeStep(utf8, t, i, s[0]);
      UnescapeEscaped(utf8, t, i + |e|, s[1..]);
      assert s == [s[0]] + s[1..];
    }
  }

  lemma {:induction false} CutSame(s: string)
    ensures Cut(s) == s <==> NulFreeText(s)
    ensures NulFreeText(Cut(s))
  {
    if s != [] && s[0] != NUL {
      CutSame(s[1..]);
      assert s == [s[0]] + s[1..];
      assert forall i | 0 <= i < |s| - 1 :: s[1..][i] == s[i + 1];
    }
  }

  lemma ParseQuoted(env: Env, src: string, i: nat, s: string)
    requires StartsAt(src, i, Quoted(s))
    ensures i <= |src| && ParseString(env, src, i) == Some((Cut(s), i + |Quoted(s)|))
  {
    hide Unescape, Closing, Escaped, Cut;
    var e := Escaped(s);
    assert Quoted(s) == ['"'] + (e + ['"']);
    Split(src, i, ['"'], e + ['"']);
    CharAt(src, i, ['"'], 0);
    ClosingEscaped(src, i + 1, s);
    Split(src, i + 1, e, ['"']);
    CharAt(src, i + 1 + |e|, ['"'], 0);
    assert src[i + 1..i + 1 + |e|] == e;
    UnescapeEscaped(env.utf8, e, 0, s);
  }

  lemma FirstOf(src: string, i: nat, text: string)
    requires text != []
    ensures StartsAt(src, i, text) ==> i < |src| && src[i] == text[0]
  {
    if StartsAt(src, i, text) {
      assert src[i..i + |text|][0] == src[i];
    }
  }

  /** The first character says what kind of value there can be. */
  lemma ValueAt(env: Env, src: string, i: nat, recur: nat)
    requires i < |src| && !IsSpace(src[i]) && recur < MAX_RECUR
    ensures var r := ParseValue(env, src, i, recur);
            && (src[i] == '{' ==> r == Members(env, src, i + 1, recur + 1, []))
            && (src[i] == '[' ==> r == Elements(env, src, i + 1, recur + 1, []))
            && (src[i] == '"' ==> var s := ParseString(env, src, i); r == if s.None? then None else Some((Str(s.value.0), s.value.1)))
            && (IsNumStart(src[i]) ==> r == ParseNumber(env, src, i))
            && (src[i] == 'n' ==> r == if StartsAt(src, i, "null") then Some((Null, i + 4)) else None)
            && (src[i] == ']' || src[i] == '}' || src[i] == ',' ==> r == None)
  {
    FirstOf(src, i, "true");
    FirstOf(src, i, "false");
    FirstOf(src, i, "null");
    hide Members, Elements, Unescape, Closing, NumEnd, StartsAt;
  }

  /** No value starts here. */
  lemma NoValue(env: Env, src: string, i: nat, recur: nat)
    requires i < |src| && (src[i] == ']' || src[i] == '}' || src[i] == ',')
    ensures ParseValue(env, src, i, recur) == None
  {
    if recur < MAX_RECUR {
      ValueAt(env, src, i, recur);
    }
  }

  /** What comes right behind a printed value. */
  predicate Ends(src: string, j: nat) {
    j == |src| || (j < |src| && (src[j] == ',' || src[j] == ']' || src[j] == '}'))
  }

  lemma {:induction false} NumEndAt(src: string, i: nat, n: nat)
    requires i + n <= |src| && (forall j | i <= j < i + n :: IsNumChar(src[j])) && Ends(src, i + n)
    ensures NumEnd(src, i) == i + n
    decreases n
  {
    if n > 0 {
      NumEndAt(src, i + 1, n - 1);
    }
  }

  lemma ParseLexeme(env: Env, src: string, i: nat, lexeme: string)
    requires StartsAt(src, i, lexeme) && Ends(src, i + |lexeme|) && WellFormed(env, Num(lexeme))
    ensures i <= |src| && ParseNumber(env, src, i) == Some((Num(lexeme), i + |lexeme|))
  {
    CharAt(src, i, lexeme, 0);
    forall j | i + 1 <= j < i + |lexeme| ensures IsNumChar(src[j]) {
      CharAt(src, i, lexeme, j - i);
    }
    NumEndAt(src, i + 1, |lexeme| - 1);
  }

  lemma EncFirst(env: Env, v: Value)
    requires WellFormed(env, v)
    ensures Enc(v) != []
    ensures var c := Enc(v)[0];
            match v
            case Null => c == 'n'
            case Str(_) => c == '"'
            case Num(_) => IsNumStart(c)
            case List(_) => c == '['
            case Obj(_) => c == '{'
  {
  }

  lemma RestFirst(v: Value, k: nat)
    ensures v.List? && 0 < k <= |v.elems| ==> ListRest(v, k) != [] && ListRest(v, k)[0] == if k == |v.elems| then ']' else ','
    ensures v.Obj? && 0 < k <= |v.fields| ==> ObjRest(v, k) != [] && ObjRest(v, k)[0] == if k == |v.fields| then '}' else ','
  {
  }

  /** What parsing a printed value comes to. */
  ghost predicate ReadBack(env: Env, src: string, i: nat, recur: nat, v: Value, r: Option<(Value, nat)>) {
    if Fits(v, recur) then r.Some? && r.value.1 == i + |Enc(v)| && (NulFree(v) ==> r.value.0 == v) else r == None
  }

  /** A printed value is read back, to its end and not further; unless it is nested too
      deep, then it is not read at all. */
  lemma {:induction false} ParseEnc(env: Env, src: string, i: nat, recur: nat, v: Value)
    requires WellFormed(env, v) && StartsAt(src, i, Enc(v)) && Ends(src, i + |Enc(v)|)
    ensures i <= |src| && ReadBack(env, src, i, recur, v, ParseValue(env, src, i, recur))
    decreases v
  {
    EncFirst(env, v);
    FirstOf(src, i, Enc(v));
    if recur < MAX_RECUR {
      ValueAt(env, src, i, recur);
      if v.List? {
        ParseListEnc(env, src, i, recur, v);
      } else if v.Obj? {
        ParseObjEnc(env, src, i, recur, v);
      } else {
        ParseLeaf(env, src, i, v);
        hide ParseValue, Members, Elements, ParseString, ParseNumber, StartsAt;
      }
    }
  }

  lemma ParseLeaf(env: Env, src: string, i: nat, v: Value)
    requires WellFormed(env, v) && StartsAt(src, i, Enc(v)) && Ends(src, i + |Enc(v)|)
    ensures i <= |src|
    ensures v.Str? ==> ParseString(env, src, i) == Some((Cut(v.s), i + |Enc(v)|)) && (NulFree(v) ==> Cut(v.s) == v.s)
    ensures v.Num? ==> ParseNumber(env, src, i) == Some((v, i + |Enc(v)|))
    ensures v.Null? ==> StartsAt(src, i, "null") && |Enc(v)| == 4
  {
    if v.Str? {
      ParseQuoted(env, src, i, v.s);
      CutSame(v.s);
    } else if v.Num? {
      ParseLexeme(env, src, i, v.lexeme);
    }
    hide ParseString, ParseNumber;
  }

  lemma {:induction false} ParseListEnc(env: Env, src: string, i: nat, recur: nat, v: Value)
    requires v.List? && WellFormed(env, v) && recur < MAX_RECUR && StartsAt(src, i, Enc(v)) && i < |src|
    requires ParseValue(env, src, i, recur) == Elements(env, src, i + 1, recur + 1, [])
    ensures ReadBack(env, src, i, recur, v, ParseValue(env, src, i, recur))
    decreases v, |v.elems| + 1
  {
    hide ParseValue, Elements, StartsAt;
    assert Enc(v) == "[" + ElemsText(v, 0);
    Split(src, i, "[", ElemsText(v, 0));
    ElementsEnc(env, src, i + 1, recur + 1, v, 0, []);
  }

  lemma {:induction false} ParseObjEnc(env: Env, src: string, i: nat, recur: nat, v: Value)
    requires v.Obj? && WellFormed(env, v) && recur < MAX_RECUR && StartsAt(src, i, Enc(v)) && i < |src|
    requires ParseValue(env, src, i, recur) == Members(env, src, i + 1, recur + 1, [])
    ensures ReadBack(env, src, i, recur, v, ParseValue(env, src, i, recur))
    decreases v, |v.fields| + 1
  {
    hide ParseValue, Members, StartsAt;
    assert Enc(v) == "{" + MembersText(v, 0);
    Split(src, i, "{", MembersText(v, 0));
    MembersEnc(env, src, i + 1, recur + 1, v, 0, []);
  }

  /** The text of a list from element `k` on, without a comma in front. */
  function ElemsText(v: Value, k: nat): string
    requires v.List? && k <= |v.elems|
  {
    if k == |v.elems| then "]" else Enc(v.elems[k]) + ListRest(v, k + 1)
  }

  lemma ElementsStop(env: Env, src: string, i: nat, recur: nat, acc: seq<Value>)
    requires i < |src| && !IsSpace(src[i]) && recur <= MAX_RECUR && ParseValue(env, src, i, recur + 1) == None
    ensures Elements(env, src, i, recur, acc) == if src[i] == ']' then Some((List(acc), i + 1)) else None
  {
    hide ParseValue;
  }

  lemma ElementsMore(env: Env, src: string, i: nat, recur: nat, acc: seq<Value>, w: Value, end: nat)
    requires i < end < |src| && recur <= MAX_RECUR && ParseValue(env, src, i, recur + 1) == Some((w, end))
    ensures src[end] == ',' ==> Elements(env, src, i, recur, acc) == Elements(env, src, end + 1, recur, acc + [w])
    ensures src[end] == ']' ==> Elements(env, src, i, recur, acc) == Some((List(acc + [w]), end + 1))
  {
    hide ParseValue;
  }

  ghost predicate ListRead(v: Value, k: nat, recur: nat, end: nat, r: Option<(Value, nat)>)
    requires v.List?
  {
    if forall j | k <= j < |v.elems| :: Fits(v.elems[j], recur)
    then r.Some? && r.value.1 == end && (NulFree(v) ==> r.value.0 == v)
    else r == None
  }

  lemma {:induction false} ElementsEnc(env: Env, src: string, i: nat, recur: nat, v: Value, k: nat, acc: seq<Value>)
    requires v.List? && WellFormed(env, v) && recur <= MAX_RECUR
    requires k <= |v.elems| && (k == |v.elems| ==> k == 0) && |acc| == k && (NulFree(v) ==> acc == v.elems[..k])
    requires StartsAt(src, i, ElemsText(v, k))
    ensures i <= |src| && ListRead(v, k, recur + 1, i + |ElemsText(v, k)|, Elements(env, src, i, recur, acc))
    decreases v, |v.elems| - k, 1
  {
    if k == |v.elems| {
      hide ParseValue, Elements, StartsAt;
      FirstOf(src, i, ElemsText(v, k));
      NoValue(env, src, i, recur + 1);
      ElementsStop(env, src, i, recur, acc);
      assert v.elems[..k] == v.elems;
    } else {
      ElementEnc(env, src, i, recur, v, k, acc);
    }
  }

  /** The text of one element, in parts. */
  lemma ElementText(env: Env, src: string, i: nat, v: Value, k: nat)
    requires v.List? && WellFormed(env, v) && k < |v.elems| && StartsAt(src, i, Enc(v.elems[k]) + ListRest(v, k + 1))
    ensures var e := v.elems[k];
            var end := i + |Enc(e)|;
            && WellFormed(env, e) && i < end < |src| && StartsAt(src, i, Enc(e)) && !IsSpace(src[i]) && src[i] != ']'
            && StartsAt(src, end, ListRest(v, k + 1)) && src[end] == if k + 1 < |v.elems| then ',' else ']'
  {
    var e := v.elems[k];
    RestFirst(v, k + 1);
    ElementOk(env, v, k);
    FirstChar(env, e);
    hide StartsAt, Enc, WellFormed, ListRest;
    ElementParts(src, i, Enc(e), ListRest(v, k + 1));
  }

  lemma ElementOk(env: Env, v: Value, k: nat)
    requires v.List? && WellFormed(env, v) && k < |v.elems|
    ensures WellFormed(env, v.elems[k])
  {
  }

  lemma FirstChar(env: Env, v: Value)
    requires WellFormed(env, v)
    ensures Enc(v) != [] && !IsSpace(Enc(v)[0]) && Enc(v)[0] != ']' && Enc(v)[0] != '}'
  {
    EncFirst(env, v);
    hide Enc, WellFormed;
  }

  /** And the rest of the list. */
  lemma ListTail(src: string, end: nat, v: Value, k: nat)
    requires v.List? && 0 < k <= |v.elems| && StartsAt(src, end, ListRest(v, k))
    ensures k < |v.elems| ==> StartsAt(src, end + 1, ElemsText(v, k)) && |ListRest(v, k)| == 1 + |ElemsText(v, k)|
    ensures k == |v.elems| ==> |ListRest(v, k)| == 1
  {
    if k < |v.elems| {
      assert ListRest(v, k) == "," + ElemsText(v, k);
      hide ListRest, ElemsText, StartsAt;
      Split(src, end, ",", ElemsText(v, k));
    }
  }

  lemma ElementParts(src: string, i: nat, e: string, rest: string)
    requires StartsAt(src, i, e + rest) && e != [] && rest != []
    ensures var end := i + |e|;
            && i < end < |src| && StartsAt(src, i, e) && StartsAt(src, end, rest) && src[i] == e[0] && src[end] == rest[0]
  {
    hide StartsAt;
    Split(src, i, e, rest);
    FirstOf(src, i + |e|, rest);
    FirstOf(src, i, e);
  }

  lemma {:induction false} ElementEnc(env: Env, src: string, i: nat, recur: nat, v: Value, k: nat, acc: seq<Value>)
    requires v.List? && WellFormed(env, v) && recur <= MAX_RECUR
    requires k < |v.elems| && |acc| == k && (NulFree(v) ==> acc == v.elems[..k])
    requires StartsAt(src, i, Enc(v.elems[k]) + ListRest(v, k + 1))
    ensures i <= |src| && ListRead(v, k, recur + 1, i + |Enc(v.elems[k])| + |ListRest(v, k + 1)|, Elements(env, src, i, recur, acc))
    decreases v, |v.elems| - k, 0
  {
    hide ParseValue, Elements, StartsAt, Enc, ListRest, ElemsText, WellFormed, Fits;
    var e := v.elems[k];
    ElementText(env, src, i, v, k);
    var end := i + |Enc(e)|;
    ListTail(src, end, v, k + 1);
    ParseEnc(env, src, i, recur + 1, e);
    if Fits(e, recur + 1) {
      var w := ParseValue(env, src, i, recur + 1).value.0;
      ElementsMore(env, src, i, recur, acc, w, end);
      ElementAdded(v, k, acc, w);
      hide NulFree;
      if k + 1 < |v.elems| {
        ElementsEnc(env, src, end + 1, recur, v, k + 1, acc + [w]);
      } else {
        assert NulFree(v) ==> v == List(acc + [w]);
      }
    } else {
      ElementsStop(env, src, i, recur, acc);
      assert !(forall j | k <= j < |v.elems| :: Fits(v.elems[j], recur + 1));
    }
  }

  lemma ElementAdded(v: Value, k: nat, acc: seq<Value>, w: Value)
    requires v.List? && k < |v.elems| && (NulFree(v) ==> acc == v.elems[..k]) && (NulFree(v.elems[k]) ==> w == v.elems[k])
    ensures NulFree(v) ==> acc + [w] == v.elems[..k + 1]
    ensures NulFree(v) && k + 1 == |v.elems| ==> acc + [w] == v.elems
  {
  }

  function MembersText(v: Value, k: nat): string
    requires v.Obj? && k <= |v.fields|
  {
    if k == |v.fields| then "}" else Quoted(v.fields[k].key) + ":" + Enc(v.fields[k].val) + ObjRest(v, k + 1)
  }

  lemma {:induction false} SetFieldNew(fields: seq<Field>, key: string, v: Value)
    requires forall i | 0 <= i < |fields| :: fields[i].key != key
    ensures SetField(fields, key, v) == fields + [Field(key, v)]
  {
    if fields != [] {
      SetFieldNew(fields[1..], key, v);
    }
  }

  lemma MembersEmpty(env: Env, src: string, i: nat, recur: nat, acc: seq<Field>)
    requires i < |src| && src[i] == '}' && recur <= MAX_RECUR
    ensures Members(env, src, i, recur, acc) == Some((Obj(acc), i + 1))
  {
  }

  /** One member, once its key and the colon have been read. */
  lemma MembersStep(env: Env, src: string, i: nat, recur: nat, acc: seq<Field>, key: string, at: nat)
    requires i < at < |src| && src[at] == ':' && recur <= MAX_RECUR && ParseString(env, src, i) == Some((key, at))
    requires at + 1 < |src| && !IsSpace(src[at + 1])
    ensures var p, r := ParseValue(env, src, at + 1, recur + 1), Members(env, src, i, recur, acc);
            && (p.None? && src[at + 1] != '}' ==> r == None)
            && (p.Some? && p.value.1 < |src| ==>
                  && (src[p.value.1] == ',' ==> r == Members(env, src, p.value.1 + 1, recur, SetField(acc, key, p.value.0)))
                  && (src[p.value.1] == '}' ==> r == Some((Obj(SetField(acc, key, p.value.0)), p.value.1 + 1))))
  {
    hide ParseValue, ParseString, SetField;
  }

  ghost predicate ObjRead(v: Value, k: nat, recur: nat, end: nat, r: Option<(Value, nat)>)
    requires v.Obj?
  {
    if forall j | k <= j < |v.fields| :: Fits(v.fields[j].val, recur)
    then r.Some? && r.value.1 == end && (NulFree(v) ==> r.value.0 == v)
    else r == None
  }

  lemma {:induction false} MembersEnc(env: Env, src: string, i: nat, recur: nat, v: Value, k: nat, acc: seq<Field>)
    requires v.Obj? && WellFormed(env, v) && recur <= MAX_RECUR
    requires k <= |v.fields| && (k == |v.fields| ==> k == 0) && (NulFree(v) ==> acc == v.fields[..k]) && (k == 0 ==> acc == [])
    requires StartsAt(src, i, MembersText(v, k))
    ensures i <= |src| && ObjRead(v, k, recur + 1, i + |MembersText(v, k)|, Members(env, src, i, recur, acc))
    decreases v, |v.fields| - k, 2
  {
    hide ParseValue, Members, StartsAt, ParseString;
    if k == |v.fields| {
      FirstOf(src, i, MembersText(v, k));
      MembersEmpty(env, src, i, recur, acc);
      assert v.fields[..k] == v.fields;
    } else {
      MemberEnc(env, src, i, recur, v, k, acc);
    }
  }

  /** The text of one member, in parts. */
  lemma MemberText(env: Env, src: string, i: nat, v: Value, k: nat)
    requires v.Obj? && WellFormed(env, v) && k < |v.fields| && StartsAt(src, i, MembersText(v, k))
    ensures var f := v.fields[k];
            var at := i + |Quoted(f.key)|;
            && i < at < |src| && src[at] == ':' && ParseString(env, src, i) == Some((Cut(f.key), at))
            && at + 1 < |src| && Enc(f.val) != [] && src[at + 1] == Enc(f.val)[0] && !IsSpace(src[at + 1]) && src[at + 1] != '}'
            && StartsAt(src, at + 1, Enc(f.val)) && StartsAt(src, at + 1 + |Enc(f.val)|, ObjRest(v, k + 1))
  {
    hide StartsAt, ParseString, Quoted, Enc, ObjRest, WellFormed, Cut, MembersText;
    var f, rest := v.fields[k], ObjRest(v, k + 1);
    FieldOk(env, v, k);
    FirstChar(env, f.val);
    MembersTextIs(v, k);
    SplitFour(src, i, Quoted(f.key), ":", Enc(f.val), rest);
    MemberParts(env, src, i, f.key, Enc(f.val), rest);
  }

  lemma MembersTextIs(v: Value, k: nat)
    requires v.Obj? && k < |v.fields|
    ensures var f := v.fields[k]; MembersText(v, k) == Quoted(f.key) + ":" + Enc(f.val) + ObjRest(v, k + 1)
  {
  }

  lemma SplitFour(src: string, i: nat, a: string, b: string, c: string, d: string)
    requires StartsAt(src, i, a + b + c + d)
    ensures StartsAt(src, i, a) && StartsAt(src, i + |a|, b) && StartsAt(src, i + |a| + |b|, c) && StartsAt(src, i + |a| + |b| + |c|, d)
  {
    hide StartsAt;
    Split(src, i, a + b + c, d);
    Split(src, i, a + b, c);
    Split(src, i, a, b);
  }

  lemma MemberParts(env: Env, src: string, i: nat, key: string, e: string, rest: string)
    requires StartsAt(src, i, Quoted(key)) && StartsAt(src, i + |Quoted(key)|, ":") && StartsAt(src, i + |Quoted(key)| + 1, e) && e != []
    ensures var at := i + |Quoted(key)|;
            && i < at && at + 1 < |src| && src[at] == ':' && ParseString(env, src, i) == Some((Cut(key), at)) && src[at + 1] == e[0]
  {
    assert |Quoted(key)| > 0;
    hide StartsAt, ParseString, Quoted, Cut;
    ParseQuoted(env, src, i, key);
    FirstOf(src, i + |Quoted(key)|, ":");
    FirstOf(src, i + |Quoted(key)| + 1, e);
  }

  lemma {:induction false} MemberEnc(env: Env, src: string, i: nat, recur: nat, v: Value, k: nat, acc: seq<Field>)
    requires v.Obj? && WellFormed(env, v) && recur <= MAX_RECUR && k < |v.fields|
    requires (NulFree(v) ==> acc == v.fields[..k]) && (k == 0 ==> acc == [])
    requires StartsAt(src, i, MembersText(v, k))
    ensures i <= |src| && ObjRead(v, k, recur + 1, i + |MembersText(v, k)|, Members(env, src, i, recur, acc))
    decreases v, |v.fields| - k, 1
  {
    hide ParseValue, Members, StartsAt, ParseString, SetField, WellFormed, Enc, Quoted, NulFree, Fits, Cut;
    var f := v.fields[k];
    MemberText(env, src, i, v, k);
    FieldOk(env, v, k);
    var at := i + |Quoted(f.key)|;
    var end := at + 1 + |Enc(f.val)|;
    RestFirst(v, k + 1);
    FirstOf(src, end, ObjRest(v, k + 1));
    ParseEnc(env, src, at + 1, recur + 1, f.val);
    MembersStep(env, src, i, recur, acc, Cut(f.key), at);
    if Fits(f.val, recur + 1) {
      var w := ParseValue(env, src, at + 1, recur + 1).value.0;
      FieldAdded(env, v, k, acc, w);
      MembersTail(env, src, end, recur, v, k, SetField(acc, Cut(f.key), w), Members(env, src, i, recur, acc));
    }
  }

  lemma FieldOk(env: Env, v: Value, k: nat)
    requires v.Obj? && WellFormed(env, v) && k < |v.fields|
    ensures WellFormed(env, v.fields[k].val)
  {
  }

  lemma RestText(v: Value, k: nat)
    requires v.Obj? && 0 < k < |v.fields|
    ensures ObjRest(v, k) == "," + MembersText(v, k) && |ObjRest(v, k)| == 1 + |MembersText(v, k)|
  {
    hide Quoted, Enc;
    FiveParts(",", Quoted(v.fields[k].key), ":", Enc(v.fields[k].val), ObjRest(v, k + 1));
  }

  lemma FiveParts(a: string, b: string, c: string, d: string, e: string)
    ensures a + b + c + d + e == a + (b + c + d + e)
  {
  }

  lemma ObjTail(src: string, end: nat, v: Value, k: nat)
    requires v.Obj? && 0 < k <= |v.fields| && end < |src| && StartsAt(src, end, ObjRest(v, k))
    ensures k < |v.fields| ==> src[end] == ',' && StartsAt(src, end + 1, MembersText(v, k)) && |ObjRest(v, k)| == 1 + |MembersText(v, k)|
    ensures k == |v.fields| ==> src[end] == '}' && |ObjRest(v, k)| == 1
  {
    RestFirst(v, k);
    FirstOf(src, end, ObjRest(v, k));
    if k < |v.fields| {
      RestText(v, k);
      hide ObjRest, MembersText, StartsAt;
      Split(src, end, ",", MembersText(v, k));
    }
  }

  /** The other members, once member `k` has been read. */
  lemma {:induction false} MembersTail(env: Env, src: string, end: nat, recur: nat, v: Value, k: nat, acc: seq<Field>, r: Option<(Value, nat)>)
    requires v.Obj? && WellFormed(env, v) && recur <= MAX_RECUR && k < |v.fields| && Fits(v.fields[k].val, recur + 1)
    requires (NulFree(v) ==> acc == v.fields[..k + 1]) && end < |src| && StartsAt(src, end, ObjRest(v, k + 1))
    requires src[end] == ',' ==> r == Members(env, src, end + 1, recur, acc)
    requires src[end] == '}' ==> r == Some((Obj(acc), end + 1))
    ensures ObjRead(v, k, recur + 1, end + |ObjRest(v, k + 1)|, r)
    decreases v, |v.fields| - k, 0
  {
    hide Members, StartsAt, WellFormed, NulFree, Fits, ObjRest, MembersText;
    ObjTail(src, end, v, k + 1);
    if k + 1 < |v.fields| {
      MembersEnc(env, src, end + 1, recur, v, k + 1, acc);
    } else {
      assert v.fields[..k + 1] == v.fields;
    }
  }

  lemma FieldAdded(env: Env, v: Value, k: nat, acc: seq<Field>, w: Value)
    requires v.Obj? && WellFormed(env, v) && k < |v.fields|
    requires (NulFree(v) ==> acc == v.fields[..k]) && (NulFree(v.fields[k].val) ==> w == v.fields[k].val)
    ensures NulFree(v) ==> SetField(acc, Cut(v.fields[k].key), w) == v.fields[..k + 1]
  {
    if NulFree(v) {
      var f := v.fields[k];
      CutSame(f.key);
      SetFieldNew(acc, f.key, w);
    }
  }

  // ---------------------------------------------------------------------------
  // The round trip

  /** No string the parser makes contains a null character. */
  lemma {:induction false} ParsedNulFree(env: Env, src: string, i: nat, recur: nat)
    requires i <= |src|
    ensures var r := ParseValue(env, src, i, recur); r.Some? ==> NulFree(r.value.0)
    decreases MAX_RECUR + 2 - recur, |src| - i, 0
  {
    hide Unescape, Closing, NumEnd, StartsAt;
    if recur < MAX_RECUR {
      var j := SkipSpace(src, i);
      if j < |src| && src[j] == '{' {
        MembersNulFree(env, src, j + 1, recur + 1, []);
      }
      if j < |src| && src[j] == '[' {
        ElementsNulFree(env, src, j + 1, recur + 1, []);
      }
      StringNulFree(env, src, i);
    }
    hide Members, Elements;
  }

  lemma StringNulFree(env: Env, src: string, i: nat)
    requires i <= |src|
    ensures var r := ParseString(env, src, i); r.Some? ==> NulFreeText(r.value.0)
  {
    hide Closing, Cut, NulFreeText;
    var j := SkipSpace(src, i);
    if j < |src| && src[j] == '"' {
      var k := Closing(src, j + 1, false);
      if k < |src| && Unescape(env.utf8, src[j + 1..k], 0).Some? {
        CutSame(Unescape(env.utf8, src[j + 1..k], 0).value);
      }
    }
    hide Unescape;
  }

  lemma {:induction false} ElementsNulFree(env: Env, src: string, i: nat, recur: nat, acc: seq<Value>)
    requires i <= |src| && recur <= MAX_RECUR && forall k | 0 <= k < |acc| :: NulFree(acc[k])
    ensures var r := Elements(env, src, i, recur, acc); r.Some? ==> NulFree(r.value.0)
    decreases MAX_RECUR + 2 - recur, |src| - i, 0
  {
    hide ParseValue;
    ParsedNulFree(env, src, i, recur + 1);
    var p := ParseValue(env, src, i, recur + 1);
    if p.Some? {
      var k := SkipSpace(src, p.value.1);
      if k < |src| && src[k] == ',' {
        ElementsNulFree(env, src, k + 1, recur, acc + [p.value.0]);
      }
    }
  }

  lemma {:induction false} SetFieldNulFree(fields: seq<Field>, key: string, v: Value)
    requires NulFreeText(key) && NulFree(v) && NulFree(Obj(fields))
    ensures NulFree(Obj(SetField(fields, key, v)))
  {
    hide NulFreeText;
    if fields != [] {
      var tail := fields[1..];
      assert forall k | 0 <= k < |tail| :: tail[k] == fields[k + 1];
      if fields[0].key != key {
        SetFieldNulFree(tail, key, v);
        var t := SetField(tail, key, v);
        assert NulFree(Obj(t));
        var r := [fields[0]] + t;
        forall k | 0 <= k < |r| ensures NulFreeText(r[k].key) && NulFree(r[k].val) {
          if k > 0 {
            assert r[k] == t[k - 1];
          }
        }
      }
    }
  }

  lemma {:induction false} MembersNulFree(env: Env, src: string, i: nat, recur: nat, acc: seq<Field>)
    requires i <= |src| && recur <= MAX_RECUR && NulFree(Obj(acc))
    ensures var r := Members(env, src, i, recur, acc); r.Some? ==> NulFree(r.value.0)
    decreases MAX_RECUR + 2 - recur, |src| - i, 0
  {
    hide ParseValue, ParseString, NulFreeText, SetField, NulFree;
    StringNulFree(env, src, i);
    var key := ParseString(env, src, i);
    if key.Some? {
      var c := SkipSpace(src, key.value.1);
      if c < |src| && src[c] == ':' {
        ParsedNulFree(env, src, c + 1, recur + 1);
        var p := ParseValue(env, src, c + 1, recur + 1);
        if p.Some? {
          SetFieldNulFree(acc, key.value.0, p.value.0);
          var k := SkipSpace(src, p.value.1);
          if k < |src| && src[k] == ',' {
            MembersNulFree(env, src, k + 1, recur, SetField(acc, key.value.0, p.value.0));
          }
        }
      }
    }
  }

  /** Decoding the encoding of a value gives back that value, exactly when it is nested
      less than 512 deep and no string in it contains a null character. */
  lemma RoundTrip(env: Env, v: Value)
    requires WellFormed(env, v)
    ensures Decode(env, Enc(v)) == Some(v) <==> Height(v) < 512 && NulFree(v)
  {
    var src := Enc(v);
    assert src[0..0 + |src|] == src;
    ParseEnc(env, src, 0, 0, v);
    FitsHeight(v, 0);
    ParsedNulFree(env, src, 0, 0);
    hide ParseValue, Fits, Height, Enc;
  }

  /** Nested 512 deep or deeper, a value is not decoded at all. */
  lemma TooDeep(env: Env, v: Value)
    requires WellFormed(env, v) && Height(v) >= 512
    ensures Decode(env, Enc(v)) == None
  {
    var src := Enc(v);
    assert src[0..0 + |src|] == src;
    ParseEnc(env, src, 0, 0, v);
    FitsHeight(v, 0);
    hide ParseValue, Fits, Height, Enc;
  }
}
