/** The JSON printer and parser: a growing buffer, and rules that move a cursor over the
    text.  Each is proved against the functions of `JsonText`. */
module JsonCodec {
  import opened Basics
  import opened JsonText

  const INIT_BUF_SIZE: nat := 64

  class StringBuffer {
    var buf: array<char>
    var cur: nat

    ghost predicate Valid()
      reads this
    {
      cur < buf.Length
    }

    ghost function Text(): string
      reads this, buf
      requires Valid()
    {
      buf[..cur]
    }

    constructor ()
      ensures Valid() && fresh(buf) && Text() == ""
    {
      buf, cur := new char[INIT_BUF_SIZE], 0;
    }

    /** A larger buffer, with the first `used` characters of the old one. */
    method Expand(ghost used: nat)
      requires used <= buf.Length && buf.Length > 0
      modifies this`buf
      ensures fresh(buf) && buf.Length > cur && buf.Length >= 2 * old(buf).Length && buf[..used] == old(buf[..used])
    {
      var alloc := 2 * buf.Length;
      if alloc <= cur {
        alloc := alloc + cur;
      }
      var larger := new char[alloc];
      forall i | 0 <= i < buf.Length {
        larger[i] := buf[i];
      }
      buf := larger;
    }

    method AddN(raw: string)
      requires Valid()
      modifies this, buf
      ensures Valid() && Text() == old(Text()) + raw && (buf == old(buf) || fresh(buf))
    {
      ghost var text := Text();
      var orig := cur;
      cur := cur + |raw|;
      if cur >= buf.Length {
        Expand(orig);
      }
      forall i | 0 <= i < |raw| {
        buf[orig + i] := raw[i];
      }
      assert buf[..orig] == text && buf[orig..cur] == raw;
      assert buf[..cur] == buf[..orig] + buf[orig..cur];
    }

    method AddC(c: char)
      requires Valid()
      modifies this, buf
      ensures Valid() && Text() == old(Text()) + [c] && (buf == old(buf) || fresh(buf))
    {
      ghost var text := Text();
      if cur + 1 >= buf.Length {
        Expand(cur);
      }
      buf[cur] := c;
      cur := cur + 1;
      assert buf[..cur] == text + [c];
    }
  }

  // ---------------------------------------------------------------------------
  // Printing

  method WriteEscapeChar(buf: StringBuffer, c: char)
    requires buf.Valid()
    modifies buf, buf.buf
    ensures buf.Valid() && buf.Text() == old(buf.Text()) + EscChar(c) && (buf.buf == old(buf.buf) || fresh(buf.buf))
  {
    hide StringBuffer.Text, StringBuffer.Valid;
    ghost var text := buf.Text();
    if c == '"' || c == '\\' || c == '/' {
      buf.AddC('\\');
      buf.AddC(c);
    } else if c == BS {
      buf.AddC('\\');
      buf.AddC('b');
    } else if c == FF {
      buf.AddC('\\');
      buf.AddC('f');
    } else if c == '\n' {
      buf.AddC('\\');
      buf.AddC('n');
    } else if c == '\r' {
      buf.AddC('\\');
      buf.AddC('r');
    } else if c == '\t' {
      buf.AddC('\\');
      buf.AddC('t');
    } else {
      buf.AddC(c);
    }
    assert buf.Text() == text + EscChar(c);
  }

  method WriteEscape(buf: StringBuffer, str: string)
    requires buf.Valid()
    modifies buf, buf.buf
    ensures buf.Valid() && buf.Text() == old(buf.Text()) + Quoted(str) && (buf.buf == old(buf.buf) || fresh(buf.buf))
  {
    hide StringBuffer.Text, StringBuffer.Valid, EscChar;
    ghost var text := buf.Text();
    buf.AddC('"');
    var n := 0;
    while n < |str|
      invariant 0 <= n <= |str| && buf.Valid() && (buf.buf == old(buf.buf) || fresh(buf.buf))
      invariant buf.Text() == text + (['"'] + Escaped(str[..n]))
    {
      WriteEscapeChar(buf, str[n]);
      assert str[..n + 1][..n] == str[..n];
      n := n + 1;
    }
    assert str[..n] == str;
    buf.AddC('"');
    assert buf.Text() == text + Quoted(str);
  }

  /** Prints a value at the end of the buffer. */
  method Encode(v: Value, buf: StringBuffer)
    requires buf.Valid()
    modifies buf, buf.buf
    ensures buf.Valid() && buf.Text() == old(buf.Text()) + Enc(v) && (buf.buf == old(buf.buf) || fresh(buf.buf))
    decreases v
  {
    hide StringBuffer.Text, StringBuffer.Valid;
    match v
    case Null => buf.AddN("null");
    case Str(s) => WriteEscape(buf, s);
    case Num(lexeme) => buf.AddN(lexeme);
    case List(_) => EncodeList(v, buf);
    case Obj(_) => EncodeObject(v, buf);
  }

  method EncodeList(v: Value, buf: StringBuffer)
    requires buf.Valid() && v.List?
    modifies buf, buf.buf
    ensures buf.Valid() && buf.Text() == old(buf.Text()) + Enc(v) && (buf.buf == old(buf.buf) || fresh(buf.buf))
    decreases v, 0
  {
    hide StringBuffer.Text, StringBuffer.Valid;
    ghost var text := buf.Text();
    buf.AddC('[');
    var isFirst := true;
    var i := 0;
    assert buf.Text() + ListRest(v, 0) == text + Enc(v);
    while i < |v.elems|
      invariant 0 <= i <= |v.elems| && isFirst == (i == 0) && buf.Valid() && (buf.buf == old(buf.buf) || fresh(buf.buf))
      invariant buf.Text() + ListRest(v, i) == text + Enc(v)
    {
      ghost var before := buf.Text();
      ListText(before, v, i);
      if !isFirst {
        buf.AddC(',');
      } else {
        isFirst := false;
      }
      Encode(v.elems[i], buf);
      i := i + 1;
    }
    buf.AddC(']');
  }

  lemma ListText(text: string, v: Value, i: nat)
    requires v.List? && i < |v.elems|
    ensures text + ListRest(v, i) == (if i > 0 then text + [','] else text) + Enc(v.elems[i]) + ListRest(v, i + 1)
  {
    var e, rest := Enc(v.elems[i]), ListRest(v, i + 1);
    assert ListRest(v, i) == (if i > 0 then "," else "") + e + rest;
  }

  method EncodeObject(v: Value, buf: StringBuffer)
    requires buf.Valid() && v.Obj?
    modifies buf, buf.buf
    ensures buf.Valid() && buf.Text() == old(buf.Text()) + Enc(v) && (buf.buf == old(buf.buf) || fresh(buf.buf))
    decreases v, 0
  {
    hide StringBuffer.Text, StringBuffer.Valid, Quoted;
    ghost var text := buf.Text();
    buf.AddC('{');
    var isFirst := true;
    var i := 0;
    assert buf.Text() + ObjRest(v, 0) == text + Enc(v);
    while i < |v.fields|
      invariant 0 <= i <= |v.fields| && isFirst == (i == 0) && buf.Valid() && (buf.buf == old(buf.buf) || fresh(buf.buf))
      invariant buf.Text() + ObjRest(v, i) == text + Enc(v)
    {
      ghost var before := buf.Text();
      ObjText(before, v, i);
      if !isFirst {
        buf.AddC(',');
      } else {
        isFirst := false;
      }
      WriteEscape(buf, v.fields[i].key);
      buf.AddC(':');
      Encode(v.fields[i].val, buf);
      i := i + 1;
    }
    buf.AddC('}');
  }

  lemma ObjText(text: string, v: Value, i: nat)
    requires v.Obj? && i < |v.fields|
    ensures text + ObjRest(v, i)
            == (if i > 0 then text + [','] else text) + Quoted(v.fields[i].key) + [':'] + Enc(v.fields[i].val) + ObjRest(v, i + 1)
  {
    hide Enc, Quoted;
    TextParts(text, if i > 0 then "," else "", Quoted(v.fields[i].key), ":", Enc(v.fields[i].val), ObjRest(v, i + 1));
    if i == 0 {
      assert text + "" == text;
    }
  }

  lemma TextParts(text: string, a: string, b: string, c: string, d: string, e: string)
    ensures text + (a + b + c + d + e) == text + a + b + c + d + e
  {
  }

  // ---------------------------------------------------------------------------
  // Reading strings

  lemma {:induction false} RunIs(r: Radix, str: string, i: nat, max: nat, count: nat)
    requires count <= max && i + count <= |str| && forall j | i <= j < i + count :: IsDigit(r, str[j])
    requires count == max || i + count == |str| || !IsDigit(r, str[i + count])
    ensures Run(r, str, i, max) == count
    decreases count
  {
    if count > 0 {
      RunIs(r, str, i + 1, max - 1, count - 1);
    }
  }

  lemma OneDigitMore(r: Radix, str: string, i: nat, count: nat)
    requires i + count < |str| && forall j | i <= j <= i + count :: IsHex(str[j])
    ensures Number(r, str[i..i + count + 1]) == Number(r, str[i..i + count]) * Base(r) + Digit(str[i + count])
  {
    assert str[i..i + count + 1][..count] == str[i..i + count];
    hide Base, Digit;
  }

  /** Reads up to `max` digits at `i`. */
  method ReadNum(r: Radix, str: string, i: nat, max: nat) returns (c: nat, count: nat)
    requires i < |str| && max > 0
    ensures count == Run(r, str, i, max) && c == RunValue(r, str, i, max)
  {
    hide Run, Number, Base, Digit;
    c, count := 0, 0;
    NoDigits(r, str[i..i]);
    while count < max && i + count < |str| && IsDigit(r, str[i + count])
      invariant 0 <= count <= max && i + count <= |str|
      invariant (forall j | i <= j < i + count :: IsDigit(r, str[j])) && c == Number(r, str[i..i + count])
    {
      OneDigitMore(r, str, i, count);
      c := c * Base(r) + Digit(str[i + count]);
      count := count + 1;
    }
    RunIs(r, str, i, max, count);
  }

  lemma NoDigits(r: Radix, s: string)
    requires s == []
    ensures Number(r, s) == 0
  {
  }

  /** What the first character, or escape, contributes. */
  lemma UnescapePlain(utf8: nat -> Option<string>, str: string, i: nat)
    requires i < |str|
    ensures var escape := str[i] == '\\' && i + 1 < |str|;
            && (!escape ==> Unescape(utf8, str, i) == Prepend([str[i]], Unescape(utf8, str, i + 1)))
            && (escape && Simple(str[i + 1]).Some? ==>
                  Unescape(utf8, str, i) == Prepend([Simple(str[i + 1]).value], Unescape(utf8, str, i + 2)))
  {
    hide Run, RunValue, NumericEsc;
  }

  lemma UnescapeNumeric(utf8: nat -> Option<string>, str: string, i: nat, e: NumEsc, n: nat)
    requires i + 1 < |str| && str[i] == '\\' && Simple(str[i + 1]).None? && NumericEsc(str[i + 1]) == Some(e) && n == Run(e.radix, str, i + 2, e.max)
    ensures n == 0 ==> Unescape(utf8, str, i).None?
    ensures n > 0 ==>
      var code := RunValue(e.radix, str, i + 2, e.max);
      var text := if e.point then utf8(code) else Some([Byte(code)]);
      i + 2 + n <= |str| && Unescape(utf8, str, i) == if text.None? then None else Prepend(text.value, Unescape(utf8, str, i + 2 + n))
  {
    hide RunValue, Simple, NumericEsc;
  }

  lemma NumericMax(c: char)
    ensures NumericEsc(c).Some? ==> NumericEsc(c).value.max > 0
  {
  }

  lemma UnescapeOctal(utf8: nat -> Option<string>, str: string, i: nat, n: nat)
    requires i + 1 < |str| && str[i] == '\\' && Simple(str[i + 1]).None? && NumericEsc(str[i + 1]).None? && n == Run(Oct, str, i + 1, 3)
    ensures n > 0 ==> i + 1 + n <= |str| && Unescape(utf8, str, i) == Prepend([Byte(RunValue(Oct, str, i + 1, 3))], Unescape(utf8, str, i + 1 + n))
    ensures n == 0 ==> Unescape(utf8, str, i) == Prepend([str[i + 1]], Unescape(utf8, str, i + 2))
  {
    hide RunValue, Simple, NumericEsc;
  }

  /** The next character, or escape: what it stands for and how long it is. */
  method NextChar(utf8: nat -> Option<string>, str: string, i: nat) returns (text: Option<string>, n: nat)
    requires i < |str|
    ensures i + n <= |str| && (text.Some? ==> n > 0)
    ensures Unescape(utf8, str, i) == if text.None? then None else Prepend(text.value, Unescape(utf8, str, i + n))
  {
    hide Run, RunValue, Unescape, Simple, NumericEsc, Prepend, IsDigit;
    UnescapePlain(utf8, str, i);
    if str[i] == '\\' && i + 1 < |str| {
      var c := str[i + 1];
      if Simple(c).Some? {
        return Some([Simple(c).value]), 2;
      }
      if NumericEsc(c).Some? {
        text, n := NextNumeric(utf8, str, i, NumericEsc(c).value);
        return;
      }
      var code, count := ReadNum(Oct, str, i + 1, 3);
      UnescapeOctal(utf8, str, i, count);
      if count > 0 {
        return Some([Byte(code)]), 1 + count;
      }
      return Some([c]), 2;
    }
    return Some([str[i]]), 1;
  }

  method NextNumeric(utf8: nat -> Option<string>, str: string, i: nat, e: NumEsc) returns (text: Option<string>, n: nat)
    requires i + 1 < |str| && str[i] == '\\' && Simple(str[i + 1]).None? && NumericEsc(str[i + 1]) == Some(e)
    ensures i + n <= |str| && (text.Some? ==> n > 0)
    ensures Unescape(utf8, str, i) == if text.None? then None else Prepend(text.value, Unescape(utf8, str, i + n))
  {
    hide Run, RunValue, Unescape, Simple, NumericEsc, Prepend, IsDigit, Byte;
    NumericMax(str[i + 1]);
    UnescapeNumeric(utf8, str, i, e, Run(e.radix, str, i + 2, e.max));
    RunNone(e.radix, str, i + 2, e.max);
    if i + 2 == |str| || !IsDigit(e.radix, str[i + 2]) {
      return None, 0;
    }
    var code, count := ReadNum(e.radix, str, i + 2, e.max);
    text := if e.point then utf8(code) else Some([Byte(code)]);
    return text, 2 + count;
  }

  lemma RunNone(r: Radix, str: string, i: nat, max: nat)
    requires i <= |str| && max > 0
    ensures Run(r, str, i, max) == 0 <==> i == |str| || !IsDigit(r, str[i])
  {
  }

  /** Replaces the escapes in the text between two quotes. */
  method ParseStr(utf8: nat -> Option<string>, str: string) returns (r: Option<string>)
    ensures r == Unescape(utf8, str, 0)
  {
    hide Unescape;
    UnescapeEnd(utf8, str);
    var buf := "";
    var i: nat := 0;
    PrependNothing(Unescape(utf8, str, 0));
    while i < |str|
      invariant i <= |str| && Unescape(utf8, str, 0) == Prepend(buf, Unescape(utf8, str, i))
      decreases |str| - i
    {
      var text, n := NextChar(utf8, str, i);
      if text.None? {
        return None;
      }
      PrependTwice(buf, text.value, Unescape(utf8, str, i + n));
      buf := buf + text.value;
      i := i + n;
    }
    assert buf + "" == buf;
    return Some(buf);
  }

  lemma UnescapeEnd(utf8: nat -> Option<string>, str: string)
    ensures Unescape(utf8, str, |str|) == Some("")
  {
  }

  lemma PrependNothing(r: Option<string>)
    ensures Prepend("", r) == r
  {
    if r.Some? {
      assert "" + r.value == r.value;
    }
  }

  lemma PrependTwice(p: string, q: string, r: Option<string>)
    ensures Prepend(p, Prepend(q, r)) == Prepend(p + q, r)
  {
    if r.Some? {
      assert p + (q + r.value) == p + q + r.value;
    }
  }

  method CutAtNul(s: string) returns (r: string)
    ensures r == Cut(s)
  {
    var i := 0;
    while i < |s| && s[i] != NUL
      invariant 0 <= i <= |s| && Cut(s) == s[..i] + Cut(s[i..])
    {
      assert s[i..][1..] == s[i + 1..];
      i := i + 1;
    }
    return s[..i];
  }

  // ---------------------------------------------------------------------------
  // Parsing

  method SkipSpaces(src: string, i: nat) returns (j: nat)
    requires i <= |src|
    ensures j == SkipSpace(src, i)
  {
    j := i;
    while j < |src| && IsSpace(src[j])
      invariant i <= j <= |src| && SkipSpace(src, i) == SkipSpace(src, j)
    {
      j := j + 1;
    }
  }

  /** A string: the text between two quotes, an escaped quote not being one. */
  method RuleString(env: Env, src: string, cur: nat) returns (r: Option<(string, nat)>)
    requires cur <= |src|
    ensures r == ParseString(env, src, cur)
  {
    hide Unescape, Cut;
    var i := cur;
    var esc, open, start := false, false, 0;
    while i < |src|
      invariant cur <= i <= |src|
      invariant !open ==> !esc && SkipSpace(src, cur) == SkipSpace(src, i)
      invariant open ==> cur < start <= i && SkipSpace(src, cur) == start - 1 && src[start - 1] == '"'
      invariant open ==> Closing(src, start, false) == Closing(src, i, esc)
    {
      var c := src[i];
      if c == '"' && !open {
        open, start := true, i + 1;
      } else if c == '"' && !esc {
        var text := ParseStr(env.utf8, src[start..i]);
        if text.None? {
          return None;
        }
        var cut := CutAtNul(text.value);
        return Some((cut, i + 1));
      } else if !open && !IsSpace(c) {
        return None;
      } else if open {
        esc := c == '\\' && !esc;
      }
      i := i + 1;
    }
    return None;
  }

  method RuleNumber(env: Env, src: string, cur: nat) returns (r: Option<(Value, nat)>)
    requires cur <= |src|
    ensures r == ParseNumber(env, src, cur)
  {
    var start := SkipSpaces(src, cur);
    if start == |src| || !IsNumStart(src[start]) {
      return None;
    }
    var i := start + 1;
    while i < |src| && IsNumChar(src[i])
      invariant start < i <= |src| && NumEnd(src, start + 1) == NumEnd(src, i)
    {
      i := i + 1;
    }
    if env.numOk(src[start..i]) {
      return Some((Num(src[start..i]), i));
    }
    return None;
  }

  method RuleArray(env: Env, src: string, cur: nat, recur: nat) returns (r: Option<(Value, nat)>)
    requires cur <= |src| && recur <= MAX_RECUR
    ensures r == ParseArray(env, src, cur, recur)
    decreases MAX_RECUR + 2 - recur, 1
  {
    hide ParseValue;
    var i: nat := SkipSpaces(src, cur);
    if i == |src| || src[i] != '[' {
      return None;
    }
    i := i + 1;
    var ret := [];
    var findComma := true;
    while findComma
      invariant i <= |src|
      invariant ParseArray(env, src, cur, recur) == if findComma then Elements(env, src, i, recur, ret) else CloseList(src, i, ret)
      decreases findComma, |src| - i
    {
      var elem := RuleValue(env, src, i, recur + 1);
      if elem.Some? {
        ret := ret + [elem.value.0];
        i := SkipSpaces(src, elem.value.1);
        findComma := i < |src| && src[i] == ',';
        if findComma {
          i := i + 1;
        }
      } else {
        findComma := false;
      }
    }
    i := SkipSpaces(src, i);
    if i < |src| && src[i] == ']' {
      return Some((List(ret), i + 1));
    }
    return None;
  }

  lemma SetStep(fields: seq<Field>, i: nat, key: string, v: Value)
    requires i <= |fields|
    ensures i == |fields| ==> fields[..i] + SetField(fields[i..], key, v) == fields + [Field(key, v)]
    ensures i < |fields| && fields[i].key != key ==>
      fields[..i] + SetField(fields[i..], key, v) == fields[..i + 1] + SetField(fields[i + 1..], key, v)
    ensures i < |fields| && fields[i].key == key ==>
      fields[..i] + SetField(fields[i..], key, v) == fields[..i] + [Field(key, v)] + fields[i + 1..]
  {
    if i < |fields| {
      assert fields[i..][1..] == fields[i + 1..];
      assert fields[..i + 1] == fields[..i] + [fields[i]];
    }
  }

  /** Sets a slot of the object under construction. */
  method SetSlot(fields: seq<Field>, key: string, v: Value) returns (r: seq<Field>)
    ensures r == SetField(fields, key, v)
  {
    hide SetField;
    assert fields[..0] + SetField(fields[0..], key, v) == SetField(fields, key, v);
    var i := 0;
    while i < |fields| && fields[i].key != key
      invariant 0 <= i <= |fields| && SetField(fields, key, v) == fields[..i] + SetField(fields[i..], key, v)
    {
      SetStep(fields, i, key, v);
      i := i + 1;
    }
    SetStep(fields, i, key, v);
    if i == |fields| {
      return fields + [Field(key, v)];
    }
    return fields[..i] + [Field(key, v)] + fields[i + 1..];
  }

  method RuleObject(env: Env, src: string, cur: nat, recur: nat) returns (r: Option<(Value, nat)>)
    requires cur <= |src| && recur <= MAX_RECUR
    ensures r == ParseObject(env, src, cur, recur)
    decreases MAX_RECUR + 2 - recur, 1
  {
    hide ParseValue, ParseString, SetField, ParseObject, CloseObject;
    ObjectStart(env, src, cur, recur);
    var i: nat := SkipSpaces(src, cur);
    if i == |src| || src[i] != '{' {
      return None;
    }
    i := i + 1;
    var ret := [];
    var findComma := true;
    while findComma
      invariant i <= |src|
      invariant ParseObject(env, src, cur, recur) == if findComma then Members(env, src, i, recur, ret) else CloseObject(src, i, ret)
      decreases findComma, |src| - i
    {
      var key := RuleString(env, src, i);
      if key.None? {
        break;
      }
      i := SkipSpaces(src, key.value.1);
      if i == |src| || src[i] != ':' {
        return None;
      }
      i := i + 1;
      var elem := RuleValue(env, src, i, recur + 1);
      if elem.None? {
        break;
      }
      ret := SetSlot(ret, key.value.0, elem.value.0);
      i := SkipSpaces(src, elem.value.1);
      findComma := i < |src| && src[i] == ',';
      if findComma {
        i := i + 1;
      }
    }
    CloseIs(src, i, ret);
    i := SkipSpaces(src, i);
    if i < |src| && src[i] == '}' {
      return Some((Obj(ret), i + 1));
    }
    return None;
  }

  lemma ObjectStart(env: Env, src: string, cur: nat, recur: nat)
    requires cur <= |src| && recur <= MAX_RECUR
    ensures var i := SkipSpace(src, cur);
            ParseObject(env, src, cur, recur) == if i == |src| || src[i] != '{' then None else Members(env, src, i + 1, recur, [])
  {
    hide Members;
  }

  lemma CloseIs(src: string, i: nat, acc: seq<Field>)
    requires i <= |src|
    ensures var j := SkipSpace(src, i);
            CloseObject(src, i, acc) == if j < |src| && src[j] == '}' then Some((Obj(acc), j + 1)) else None
  {
  }

  /** One value, by trying every rule in turn. */
  method RuleValue(env: Env, src: string, cur: nat, recur: nat) returns (r: Option<(Value, nat)>)
    requires cur <= |src|
    ensures r == ParseValue(env, src, cur, recur)
    decreases MAX_RECUR + 2 - recur, 0
  {
    hide ParseString, ParseNumber, ParseArray, ParseObject;
    if recur >= MAX_RECUR {
      return None;
    }
    r := RuleObject(env, src, cur, recur + 1);
    if r.Some? {
      return;
    }
    r := RuleArray(env, src, cur, recur + 1);
    if r.Some? {
      return;
    }
    var s := RuleString(env, src, cur);
    if s.Some? {
      return Some((Str(s.value.0), s.value.1));
    }
    r := RuleNumber(env, src, cur);
    if r.Some? {
      return;
    }
    var i := SkipSpaces(src, cur);
    if StartsAt(src, i, "true") {
      return Some((Num("1"), i + 4));
    }
    if StartsAt(src, i, "false") {
      return Some((Num("0"), i + 5));
    }
    if StartsAt(src, i, "null") {
      return Some((Null, i + 4));
    }
    return None;
  }

  method Parse(env: Env, src: string) returns (r: Option<Value>)
    ensures r == Decode(env, src)
  {
    hide ParseValue;
    var v := RuleValue(env, src, 0, 0);
    if v.None? {
      return None;
    }
    var i := SkipSpaces(src, v.value.1);
    if i < |src| {
      return None;
    }
    return Some(v.value.0);
  }

  /** Printing a value and parsing what was printed. */
  method EncodeThenDecode(env: Env, v: Value) returns (r: Option<Value>)
    requires WellFormed(env, v)
    ensures r == Some(v) <==> Height(v) < 512 && NulFree(v)
  {
    var buf := new StringBuffer();
    Encode(v, buf);
    assert buf.Text() == Enc(v);
    RoundTrip(env, v);
    r := Parse(env, buf.buf[..buf.cur]);
  }
}
