/** JSON texts by their grammar (RFC 8259, sections 2 to 7), whoever wrote them: what each of
    them means, and that the parser finds that out. */
module JsonGrammar {
  import opened Basics
  import opened JsonText

  // ---------------------------------------------------------------------------
  // The grammar

  /** A part of a string: a character as it is, a one-letter escape, or four hexadecimal
      digits. */
  datatype Piece = Plain(c: char) | Letter(c: char) | Point(digits: string)

  datatype Exponent = NoExponent | Exponent(e: char, sign: string, digits: string)

  /** A text.  The strings besides keys and numbers are the space between tokens. */
  datatype Syntax =
    | SNull | STrue | SFalse
    | SNumber(minus: bool, int_: string, frac: string, exp: Exponent)
    | SString(pieces: seq<Piece>)
    | SList(space: string, elems: seq<Element>)
    | SObject(space: string, members: seq<Member>)

  datatype Element = Element(before: string, syn: Syntax, after: string)

  datatype Member = Member(before: string, key: seq<Piece>, colon: string, gap: string, syn: Syntax, after: string)

  function PieceText(p: Piece): string {
    match p
    case Plain(c) => [c]
    case Letter(c) => ['\\', c]
    case Point(digits) => ['\\', 'u'] + digits
  }

  function PiecesText(ps: seq<Piece>): string {
    if ps == [] then "" else PieceText(ps[0]) + PiecesText(ps[1..])
  }

  function StringText(ps: seq<Piece>): string {
    ['"'] + (PiecesText(ps) + ['"'])
  }

  function NumberText(minus: bool, int_: string, frac: string, exp: Exponent): string {
    (if minus then "-" else "") + int_ + (if frac == "" then "" else "." + frac)
    + (match exp case NoExponent => "" case Exponent(e, sign, digits) => [e] + sign + digits)
  }

  function Text(t: Syntax): string
    decreases t
  {
    match t
    case SNull => "null"
    case STrue => "true"
    case SFalse => "false"
    case SNumber(minus, int_, frac, exp) => NumberText(minus, int_, frac, exp)
    case SString(pieces) => StringText(pieces)
    case SList(space, elems) => "[" + (if elems == [] then space + "]" else ElementsText(t, 0))
    case SObject(space, members) => "{" + (if members == [] then space + "}" else MembersText(t, 0))
  }

  /** From element `k` on. */
  function ElementsText(t: Syntax, k: nat): string
    requires t.SList? && k < |t.elems|
    decreases t, |t.elems| - k
  {
    var e := t.elems[k];
    e.before + (Text(e.syn) + (e.after + (if k + 1 == |t.elems| then "]" else "," + ElementsText(t, k + 1))))
  }

  function MembersText(t: Syntax, k: nat): string
    requires t.SObject? && k < |t.members|
    decreases t, |t.members| - k
  {
    var m := t.members[k];
    m.before + (StringText(m.key) + (m.colon + (":" + (m.gap + (Text(m.syn) + (m.after
      + (if k + 1 == |t.members| then "}" else "," + MembersText(t, k + 1))))))))
  }

  predicate Blank(s: string) {
    forall i | 0 <= i < |s| :: s[i] == ' ' || s[i] == '\t' || s[i] == '\n' || s[i] == '\r'
  }

  predicate Decimal(c: char) {
    '0' <= c <= '9'
  }

  predicate Digits(s: string) {
    s != "" && forall i | 0 <= i < |s| :: Decimal(s[i])
  }

  predicate WellNumber(int_: string, frac: string, exp: Exponent) {
    && Digits(int_) && (|int_| > 1 ==> int_[0] != '0')
    && (frac == "" || Digits(frac))
    && (exp.Exponent? ==> (exp.e == 'e' || exp.e == 'E') && (exp.sign == "" || exp.sign == "+" || exp.sign == "-") && Digits(exp.digits))
  }

  // ---------------------------------------------------------------------------
  // The meaning

  /** What the letter of an escape stands for.  The last three are not in the standard. */
  function LetterMeans(c: char): Option<char> {
    if c == '"' || c == '\\' || c == '/' then Some(c)
    else if c == 'b' then Some('\U{8}') else if c == 'f' then Some('\U{c}')
    else if c == 'n' then Some('\n') else if c == 'r' then Some('\r') else if c == 't' then Some('\t')
    else if c == 'a' then Some('\U{7}') else if c == 'v' then Some('\U{b}') else if c == '\'' then Some(c)
    else None
  }

  predicate HexDigit(c: char) {
    Decimal(c) || 'a' <= c <= 'f' || 'A' <= c <= 'F'
  }

  function Sixteenth(c: char): (n: nat)
    requires HexDigit(c)
    ensures n < 16
  {
    if Decimal(c) then c as nat - '0' as nat
    else if 'a' <= c then c as nat - 'a' as nat + 10
    else c as nat - 'A' as nat + 10
  }

  predicate FourHex(s: string) {
    |s| == 4 && forall i | 0 <= i < 4 :: HexDigit(s[i])
  }

  function CodePoint(s: string): nat
    requires FourHex(s)
  {
    4096 * Sixteenth(s[0]) + 256 * Sixteenth(s[1]) + 16 * Sixteenth(s[2]) + Sixteenth(s[3])
  }

  predicate WellPiece(env: Env, p: Piece) {
    match p
    case Plain(c) => c != '"' && c != '\\'
    case Letter(c) => LetterMeans(c).Some?
    case Point(digits) => FourHex(digits) && env.utf8(CodePoint(digits)).Some?
  }

  /** The code takes up to eight digits for a code point: no digit may follow the four. */
  predicate Apart(ps: seq<Piece>) {
    forall i | 0 <= i < |ps| - 1 :: ps[i].Point? && ps[i + 1].Plain? ==> !HexDigit(ps[i + 1].c)
  }

  predicate WellPieces(env: Env, ps: seq<Piece>) {
    (forall i | 0 <= i < |ps| :: WellPiece(env, ps[i])) && Apart(ps)
  }

  function PieceMeans(env: Env, p: Piece): string
    requires WellPiece(env, p)
  {
    match p
    case Plain(c) => [c]
    case Letter(c) => [LetterMeans(c).value]
    case Point(digits) => env.utf8(CodePoint(digits)).value
  }

  function PiecesMean(env: Env, ps: seq<Piece>): string
    requires forall i | 0 <= i < |ps| :: WellPiece(env, ps[i])
  {
    if ps == [] then "" else PieceMeans(env, ps[0]) + PiecesMean(env, ps[1..])
  }

  /** A text of the grammar whose numbers the VM has and whose strings have no null character
      in them. */
  predicate Well(env: Env, t: Syntax)
    decreases t
  {
    match t
    case SNumber(minus, int_, frac, exp) => WellNumber(int_, frac, exp) && env.numOk(NumberText(minus, int_, frac, exp))
    case SString(pieces) => WellPieces(env, pieces) && NulFreeText(PiecesMean(env, pieces))
    case SList(space, elems) => Blank(space) && forall i | 0 <= i < |elems| :: Blank(elems[i].before) && Well(env, elems[i].syn) && Blank(elems[i].after)
    case SObject(space, members) =>
      && Blank(space)
      && forall i | 0 <= i < |members| ::
           && Blank(members[i].before) && Blank(members[i].colon) && Blank(members[i].gap) && Blank(members[i].after)
           && WellPieces(env, members[i].key) && NulFreeText(PiecesMean(env, members[i].key)) && Well(env, members[i].syn)
    case _ => true
  }

  /** The VM has no truth values: 1 and 0 stand for them. */
  function Meaning(env: Env, t: Syntax): Value
    requires Well(env, t)
    decreases t
  {
    match t
    case SNull => Null
    case STrue => Num("1")
    case SFalse => Num("0")
    case SNumber(minus, int_, frac, exp) => Num(NumberText(minus, int_, frac, exp))
    case SString(pieces) => Str(PiecesMean(env, pieces))
    case SList(_, elems) => List(ElementsMean(env, t, |elems|))
    case SObject(_, members) => Obj(MembersMean(env, t, |members|))
  }

  function ElementsMean(env: Env, t: Syntax, n: nat): (r: seq<Value>)
    requires t.SList? && Well(env, t) && n <= |t.elems|
    ensures |r| == n
    decreases t, n
  {
    if n == 0 then [] else ElementsMean(env, t, n - 1) + [Meaning(env, t.elems[n - 1].syn)]
  }

  /** A key that was there already gets the new value in its place; any other goes to the
      end. */
  function WithMember(fields: seq<Field>, key: string, v: Value): seq<Field> {
    if exists i :: 0 <= i < |fields| && fields[i].key == key
    then seq(|fields|, i requires 0 <= i < |fields| => if fields[i].key == key then Field(key, v) else fields[i])
    else fields + [Field(key, v)]
  }

  function MembersMean(env: Env, t: Syntax, n: nat): seq<Field>
    requires t.SObject? && Well(env, t) && n <= |t.members|
    decreases t, n
  {
    if n == 0 then []
    else WithMember(MembersMean(env, t, n - 1), PiecesMean(env, t.members[n - 1].key), Meaning(env, t.members[n - 1].syn))
  }

  /** No part of the text is in more than `n` brackets. */
  predicate Within(t: Syntax, n: nat)
    decreases t
  {
    match t
    case SList(_, elems) => forall i | 0 <= i < |elems| :: n > 0 && Within(elems[i].syn, n - 1)
    case SObject(_, members) => forall i | 0 <= i < |members| :: n > 0 && Within(members[i].syn, n - 1)
    case _ => true
  }

  /** As the parser counts: two levels for a bracket, and there are 1024. */
  predicate Shallow(t: Syntax, recur: nat)
    decreases t
  {
    && recur < MAX_RECUR
    && match t
       case SList(_, elems) => forall i | 0 <= i < |elems| :: Shallow(elems[i].syn, recur + 2)
       case SObject(_, members) => forall i | 0 <= i < |members| :: Shallow(members[i].syn, recur + 2)
       case _ => true
  }

  lemma {:induction false} ShallowWithin(t: Syntax, recur: nat, n: nat)
    requires recur + 2 * n == MAX_RECUR - 2
    ensures Shallow(t, recur) <==> Within(t, n)
    decreases t
  {
    match t
    case SList(_, elems) =>
      if n > 0 {
        forall i | 0 <= i < |elems| ensures Shallow(elems[i].syn, recur + 2) <==> Within(elems[i].syn, n - 1) {
          ShallowWithin(elems[i].syn, recur + 2, n - 1);
        }
      } else if elems != [] {
        assert !Shallow(elems[0].syn, recur + 2);
      }
    case SObject(_, members) =>
      if n > 0 {
        forall i | 0 <= i < |members| ensures Shallow(members[i].syn, recur + 2) <==> Within(members[i].syn, n - 1) {
          ShallowWithin(members[i].syn, recur + 2, n - 1);
        }
      } else if members != [] {
        assert !Shallow(members[0].syn, recur + 2);
      }
    case _ =>
  }

  // ---------------------------------------------------------------------------
  // Members with the same key

  ghost predicate LastMember(env: Env, t: Syntax, n: nat, f: Field)
    requires t.SObject? && Well(env, t) && n <= |t.members|
  {
    exists i :: 0 <= i < n && MemberSays(env, t, i, f) && forall k | i < k < n :: KeyOf(env, t, k) != f.key
  }

  function KeyOf(env: Env, t: Syntax, i: nat): string
    requires t.SObject? && Well(env, t) && i < |t.members|
  {
    PiecesMean(env, t.members[i].key)
  }

  ghost predicate MemberSays(env: Env, t: Syntax, i: nat, f: Field)
    requires t.SObject? && Well(env, t) && i < |t.members|
  {
    f == Field(KeyOf(env, t, i), Meaning(env, t.members[i].syn))
  }

  ghost predicate HasKey(fields: seq<Field>, key: string) {
    exists j :: 0 <= j < |fields| && fields[j].key == key
  }

  /** The key of a slot is one of the members', no key is there twice, none is missing, and
      its value is what the last member with that key says. */
  lemma {:induction false} LastWins(env: Env, t: Syntax, n: nat)
    requires t.SObject? && Well(env, t) && n <= |t.members|
    ensures var fields := MembersMean(env, t, n);
            && Distinct(fields)
            && (forall i | 0 <= i < n :: HasKey(fields, KeyOf(env, t, i)))
            && (forall j | 0 <= j < |fields| :: LastMember(env, t, n, fields[j]))
    decreases n
  {
    if n > 0 {
      LastWins(env, t, n - 1);
      var before, key, v := MembersMean(env, t, n - 1), KeyOf(env, t, n - 1), Meaning(env, t.members[n - 1].syn);
      var fields := MembersMean(env, t, n);
      MoreMembers(env, t, n);
      hide MembersMean, WithMember, Well, PiecesMean, Meaning, Distinct, KeyOf, MemberSays, LastMember;
      MemberSet(before, key, v);
      forall i | 0 <= i < n ensures HasKey(fields, KeyOf(env, t, i)) {
        if i < n - 1 {
          var j :| 0 <= j < |before| && before[j].key == KeyOf(env, t, i);
          assert fields[j].key == before[j].key;
        }
      }
      forall j | 0 <= j < |fields| ensures LastMember(env, t, n, fields[j]) {
        if fields[j].key == key {
          LastNow(env, t, n, fields[j]);
        } else {
          LastStill(env, t, n, before[j]);
        }
      }
    }
  }

  lemma MoreMembers(env: Env, t: Syntax, n: nat)
    requires t.SObject? && Well(env, t) && 0 < n <= |t.members|
    ensures MembersMean(env, t, n) == WithMember(MembersMean(env, t, n - 1), KeyOf(env, t, n - 1), Meaning(env, t.members[n - 1].syn))
  {
    hide Well, PiecesMean, Meaning, WithMember;
  }

  lemma LastNow(env: Env, t: Syntax, n: nat, f: Field)
    requires t.SObject? && Well(env, t) && 0 < n <= |t.members| && f.key == KeyOf(env, t, n - 1) && f.val == Meaning(env, t.members[n - 1].syn)
    ensures LastMember(env, t, n, f)
  {
    hide Well, KeyOf, Meaning;
    assert MemberSays(env, t, n - 1, f);
  }

  lemma LastStill(env: Env, t: Syntax, n: nat, f: Field)
    requires t.SObject? && Well(env, t) && 0 < n <= |t.members| && f.key != KeyOf(env, t, n - 1) && LastMember(env, t, n - 1, f)
    ensures LastMember(env, t, n, f)
  {
    hide Well, KeyOf, MemberSays;
    var i :| 0 <= i < n - 1 && MemberSays(env, t, i, f) && forall k | i < k < n - 1 :: KeyOf(env, t, k) != f.key;
    assert MemberSays(env, t, i, f);
  }

  lemma MemberSet(fields: seq<Field>, key: string, v: Value)
    requires Distinct(fields)
    ensures var r := WithMember(fields, key, v);
            && Distinct(r) && |fields| <= |r| <= |fields| + 1
            && (forall j | 0 <= j < |r| :: if r[j].key == key then r[j].val == v else j < |fields| && r[j] == fields[j])
            && (forall j | 0 <= j < |fields| :: r[j].key == fields[j].key)
            && (exists j :: 0 <= j < |r| && r[j].key == key)
  {
    var r := WithMember(fields, key, v);
    if i :| 0 <= i < |fields| && fields[i].key == key {
      assert r[i].key == key;
    } else {
      assert r[|fields|].key == key;
    }
  }

  /** It is how the parser sets a slot. */
  lemma {:induction false} SetIsWith(fields: seq<Field>, key: string, v: Value)
    requires Distinct(fields)
    ensures SetField(fields, key, v) == WithMember(fields, key, v)
  {
    if fields != [] {
      var rest := fields[1..];
      if fields[0].key == key {
        WithFirst(fields, key, v);
      } else {
        SetIsWith(rest, key, v);
        WithRest(fields, key, v);
      }
      hide WithMember;
    }
  }

  lemma WithFirst(fields: seq<Field>, key: string, v: Value)
    requires Distinct(fields) && fields != [] && fields[0].key == key
    ensures WithMember(fields, key, v) == [Field(key, v)] + fields[1..]
  {
    forall i | 1 <= i < |fields| ensures WithMember(fields, key, v)[i] == fields[i] {
    }
  }

  lemma WithRest(fields: seq<Field>, key: string, v: Value)
    requires fields != [] && fields[0].key != key
    ensures WithMember(fields, key, v) == [fields[0]] + WithMember(fields[1..], key, v)
  {
    var rest := fields[1..];
    if i :| 0 <= i < |fields| && fields[i].key == key {
      assert rest[i - 1].key == key;
      var r, q := WithMember(fields, key, v), WithMember(rest, key, v);
      forall j | 1 <= j < |r| ensures r[j] == q[j - 1] {
      }
    } else {
      assert forall j | 0 <= j < |rest| :: rest[j] == fields[j + 1];
    }
  }

  // ---------------------------------------------------------------------------
  // Reading strings

  lemma SkipBlank(src: string, i: nat, space: string)
    requires Blank(space) && StartsAt(src, i, space) && (i + |space| == |src| || !IsSpace(src[i + |space|]))
    ensures SkipSpace(src, i) == i + |space|
    decreases |space|
  {
    if space != "" {
      assert src[i] == src[i..i + |space|][0];
      var rest := space[1..];
      assert src[i + 1..i + 1 + |rest|] == src[i..i + |space|][1..];
      SkipBlank(src, i + 1, rest);
    }
  }

  /** The closing quote is behind the pieces. */
  lemma ClosingPiece(env: Env, src: string, i: nat, p: Piece)
    requires WellPiece(env, p) && StartsAt(src, i, PieceText(p))
    ensures i + |PieceText(p)| <= |src| && Closing(src, i, false) == Closing(src, i + |PieceText(p)|, false)
  {
    var text := PieceText(p);
    CharAt(src, i, text, 0);
    match p
    case Plain(c) =>
    case Letter(c) =>
      CharAt(src, i, text, 1);
      assert Closing(src, i, false) == Closing(src, i + 1, true) == Closing(src, i + 2, false);
    case Point(digits) =>
      CharAt(src, i, text, 1);
      CharAt(src, i, text, 2);
      CharAt(src, i, text, 3);
      CharAt(src, i, text, 4);
      CharAt(src, i, text, 5);
      hide StartsAt, PieceText;
      assert Closing(src, i, false) == Closing(src, i + 1, true) == Closing(src, i + 2, false);
      PlainClosing(src, i + 2);
      PlainClosing(src, i + 3);
      PlainClosing(src, i + 4);
      PlainClosing(src, i + 5);
  }

  lemma PlainClosing(src: string, i: nat)
    requires i < |src| && src[i] != '"' && src[i] != '\\'
    ensures Closing(src, i, false) == Closing(src, i + 1, false)
  {
  }

  lemma {:induction false} ClosingPieces(env: Env, src: string, i: nat, ps: seq<Piece>)
    requires (forall k | 0 <= k < |ps| :: WellPiece(env, ps[k])) && StartsAt(src, i, PiecesText(ps) + ['"'])
    ensures i <= |src| && Closing(src, i, false) == i + |PiecesText(ps)|
    decreases |ps|
  {
    if ps == [] {
      assert PiecesText(ps) + ['"'] == ['"'];
      CharAt(src, i, ['"'], 0);
    } else {
      var p, rest := PieceText(ps[0]), PiecesText(ps[1..]);
      assert PiecesText(ps) == p + rest;
      hide StartsAt, Closing, PieceText, PiecesText, WellPiece;
      ThreeParts(p, rest, ['"']);
      Split(src, i, p, rest + ['"']);
      ClosingPiece(env, src, i, ps[0]);
      ClosingPieces(env, src, i + |p|, ps[1..]);
    }
  }

  /** Four digits, and no more. */
  lemma FourDigits(s: string, i: nat, digits: string)
    requires FourHex(digits) && StartsAt(s, i, digits) && (i + 4 == |s| || !HexDigit(s[i + 4]))
    ensures i <= |s| && Run(Hex, s, i, 8) == 4 && RunValue(Hex, s, i, 8) == CodePoint(digits)
  {
    CharAt(s, i, digits, 0);
    CharAt(s, i, digits, 1);
    CharAt(s, i, digits, 2);
    CharAt(s, i, digits, 3);
    assert Run(Hex, s, i + 4, 4) == 0;
    assert Run(Hex, s, i + 3, 5) == 1;
    assert Run(Hex, s, i + 2, 6) == 2;
    assert Run(Hex, s, i + 1, 7) == 3;
    assert s[i..i + 4] == digits;
    hide Run;
    NumberOfFour(digits);
  }

  lemma NumberOfFour(d: string)
    requires FourHex(d)
    ensures Number(Hex, d) == CodePoint(d)
  {
    var d3 := d[..3];
    var d2 := d3[..2];
    var d1 := d2[..1];
    assert d1[..0] == [];
    SameDigit(d[0]);
    SameDigit(d[1]);
    SameDigit(d[2]);
    SameDigit(d[3]);
    hide Digit, Sixteenth;
    assert Number(Hex, d1[..0]) == 0;
    assert Number(Hex, d1) == Sixteenth(d[0]);
    assert Number(Hex, d2) == 16 * Sixteenth(d[0]) + Sixteenth(d[1]);
    assert Number(Hex, d3) == 256 * Sixteenth(d[0]) + 16 * Sixteenth(d[1]) + Sixteenth(d[2]);
  }

  lemma SameDigit(c: char)
    requires HexDigit(c)
    ensures Digit(c) == Sixteenth(c)
  {
  }

  lemma UnescapePlain(env: Env, t: string, i: nat)
    requires i < |t| && t[i] != '\\'
    ensures Unescape(env.utf8, t, i) == Prepend([t[i]], Unescape(env.utf8, t, i + 1))
  {
    hide Run, RunValue, NumericEsc, Simple;
  }

  lemma UnescapeLetter(env: Env, t: string, i: nat)
    requires i + 1 < |t| && t[i] == '\\' && LetterMeans(t[i + 1]).Some?
    ensures Unescape(env.utf8, t, i) == Prepend([LetterMeans(t[i + 1]).value], Unescape(env.utf8, t, i + 2))
  {
    if t[i + 1] == '/' {
      assert Run(Oct, t, i + 1, 3) == 0;
      hide Run, RunValue;
    } else {
      assert Simple(t[i + 1]) == LetterMeans(t[i + 1]);
      hide Simple, LetterMeans, Run, RunValue, NumericEsc;
    }
  }

  lemma UnescapePoint(env: Env, t: string, i: nat)
    requires i + 2 <= |t| && t[i] == '\\' && t[i + 1] == 'u' && Run(Hex, t, i + 2, 8) > 0
    ensures var code := RunValue(Hex, t, i + 2, 8);
            Unescape(env.utf8, t, i) == if env.utf8(code).None? then None
              else Prepend(env.utf8(code).value, Unescape(env.utf8, t, i + 2 + Run(Hex, t, i + 2, 8)))
  {
    hide Run, RunValue;
    assert Simple('u').None? && NumericEsc('u') == Some(NumEsc(Hex, 8, true));
    hide Simple, NumericEsc, Prepend;
  }

  /** One piece, at the start of what is left of a string. */
  lemma UnescapePiece(env: Env, t: string, i: nat, p: Piece)
    requires WellPiece(env, p) && StartsAt(t, i, PieceText(p))
    requires p.Point? ==> i + 6 == |t| || !HexDigit(t[i + 6])
    ensures i + |PieceText(p)| <= |t|
    ensures Unescape(env.utf8, t, i) == Prepend(PieceMeans(env, p), Unescape(env.utf8, t, i + |PieceText(p)|))
  {
    hide Unescape, Run, RunValue, StartsAt, LetterMeans, HexDigit;
    CharAt(t, i, PieceText(p), 0);
    match p
    case Plain(c) =>
      UnescapePlain(env, t, i);
    case Letter(c) =>
      CharAt(t, i, PieceText(p), 1);
      UnescapeLetter(env, t, i);
    case Point(digits) =>
      CharAt(t, i, PieceText(p), 1);
      Split(t, i, ['\\', 'u'], digits);
      FourDigits(t, i + 2, digits);
      UnescapePoint(env, t, i);
  }

  /** A digit follows the four. */
  predicate RunsOn(ps: seq<Piece>) {
    |ps| > 1 && ps[0].Point? && ps[1].Plain? && HexDigit(ps[1].c)
  }

  lemma ApartNext(ps: seq<Piece>)
    requires ps != []
    ensures Apart(ps) <==> !RunsOn(ps) && Apart(ps[1..])
  {
    hide HexDigit;
    forall k | 0 <= k < |ps[1..]| ensures ps[1..][k] == ps[k + 1] {
    }
    if !RunsOn(ps) && Apart(ps[1..]) {
      forall k | 0 < k < |ps| - 1 && ps[k].Point? && ps[k + 1].Plain? ensures !HexDigit(ps[k + 1].c) {
        assert ps[1..][k - 1] == ps[k] && ps[1..][k] == ps[k + 1];
      }
    }
  }

  lemma PieceNext(t: string, i: nat, ps: seq<Piece>)
    requires ps != [] && i <= |t| && t[i..] == PiecesText(ps)
    ensures var end := i + |PieceText(ps[0])|;
            && end <= |t| && StartsAt(t, i, PieceText(ps[0])) && t[end..] == PiecesText(ps[1..])
            && (|ps| == 1 ==> end == |t|) && (|ps| > 1 ==> end < |t| && t[end] == PieceText(ps[1])[0])
  {
    var p, rest := PieceText(ps[0]), PiecesText(ps[1..]);
    FrontAndRest(t, i, p, rest);
    if |ps| > 1 {
      assert rest == PieceText(ps[1]) + PiecesText(ps[1..][1..]);
      assert rest[0] == PieceText(ps[1])[0] == t[i + |p|..][0] == t[i + |p|];
    }
  }

  lemma PieceStep(env: Env, t: string, i: nat, ps: seq<Piece>)
    requires ps != [] && WellPiece(env, ps[0]) && i <= |t| && t[i..] == PiecesText(ps) && !RunsOn(ps)
    ensures var end := i + |PieceText(ps[0])|;
            && end <= |t| && t[end..] == PiecesText(ps[1..])
            && Unescape(env.utf8, t, i) == Prepend(PieceMeans(env, ps[0]), Unescape(env.utf8, t, end))
  {
    hide Unescape, PieceMeans;
    PieceNext(t, i, ps);
    assert ps[0].Point? ==> i + 6 == |t| || !HexDigit(t[i + 6]);
    hide Unescape, PieceText, PiecesText, PieceMeans;
    UnescapePiece(env, t, i, ps[0]);
  }

  lemma {:induction false} UnescapePieces(env: Env, t: string, i: nat, ps: seq<Piece>)
    requires WellPieces(env, ps) && i <= |t| && t[i..] == PiecesText(ps)
    ensures Unescape(env.utf8, t, i) == Some(PiecesMean(env, ps))
    decreases |ps|
  {
    if ps != [] {
      ApartNext(ps);
      PieceStep(env, t, i, ps);
      hide Unescape, PieceText, PiecesText, WellPiece, PieceMeans, Apart, RunsOn;
      UnescapePieces(env, t, i + |PieceText(ps[0])|, ps[1..]);
    }
  }

  lemma StringAt(env: Env, src: string, i: nat, end: nat)
    requires i < end < |src| && src[i] == '"' && Closing(src, i + 1, false) == end
    ensures var r := Unescape(env.utf8, src[i + 1..end], 0);
            ParseString(env, src, i) == if r.None? then None else Some((Cut(r.value), end + 1))
  {
    hide Unescape, Closing, Cut;
    assert SkipSpace(src, i) == i;
    hide SkipSpace;
  }

  lemma QuotedAt(env: Env, src: string, i: nat, text: string, end: nat)
    requires StartsAt(src, i, ['"'] + (text + ['"'])) && end == i + 1 + |text| && Closing(src, i + 1, false) == end
    ensures var r := Unescape(env.utf8, text, 0);
            i < |src| && src[i] == '"' && ParseString(env, src, i) == if r.None? then None else Some((Cut(r.value), end + 1))
  {
    hide *;
    QuotesAt(src, i, text, end);
    StringAt(env, src, i, end);
  }

  lemma QuotesAt(src: string, i: nat, text: string, end: nat)
    requires StartsAt(src, i, ['"'] + (text + ['"'])) && end == i + 1 + |text|
    ensures end < |src| && src[i] == '"' && src[end] == '"' && src[i + 1..end] == text
  {
    hide *;
    Split(src, i, ['"'], text + ['"']);
    CharAt(src, i, ['"'], 0);
    Split(src, i + 1, text, ['"']);
    CharAt(src, end, ['"'], 0);
    TextAt(src, i + 1, text);
  }

  lemma TextAt(src: string, i: nat, text: string)
    requires StartsAt(src, i, text)
    ensures i + |text| <= |src| && src[i..i + |text|] == text
  {
  }

  lemma ReadsString(env: Env, src: string, i: nat, ps: seq<Piece>)
    requires WellPieces(env, ps) && StartsAt(src, i, StringText(ps)) && NulFreeText(PiecesMean(env, ps))
    ensures i < |src| && src[i] == '"' && ParseString(env, src, i) == Some((PiecesMean(env, ps), i + |StringText(ps)|))
  {
    hide StartsAt, Unescape, Closing, ParseString, NulFreeText, PiecesMean, WellPiece, Apart, PiecesText, Cut;
    var text := PiecesText(ps);
    Split(src, i, ['"'], text + ['"']);
    ClosingPieces(env, src, i + 1, ps);
    assert text[0..] == text;
    UnescapePieces(env, text, 0, ps);
    QuotedAt(env, src, i, text, i + 1 + |text|);
    CutSame(PiecesMean(env, ps));
  }

  // ---------------------------------------------------------------------------
  // Reading numbers

  predicate NumChars(s: string) {
    forall i | 0 <= i < |s| :: IsNumChar(s[i])
  }

  lemma NumberChars(minus: bool, int_: string, frac: string, exp: Exponent)
    requires WellNumber(int_, frac, exp)
    ensures var s := NumberText(minus, int_, frac, exp); s != "" && IsNumStart(s[0]) && NumChars(s)
  {
    var a := (if minus then "-" else "") + int_;
    var b := if frac == "" then "" else "." + frac;
    var c := match exp case NoExponent => "" case Exponent(e, sign, digits) => [e] + sign + digits;
    assert NumChars(a) && a != "" && IsNumStart(a[0]);
    assert NumChars(b) && NumChars(c);
    assert NumberText(minus, int_, frac, exp) == a + b + c;
  }

  /** The character behind a text that could go on. */
  predicate Stops(src: string, i: nat) {
    i >= |src| || !IsNumChar(src[i])
  }

  lemma {:induction false} NumEndStops(src: string, i: nat, n: nat)
    requires i + n <= |src| && (forall j | i <= j < i + n :: IsNumChar(src[j])) && Stops(src, i + n)
    ensures NumEnd(src, i) == i + n
    decreases n
  {
    if n > 0 {
      NumEndStops(src, i + 1, n - 1);
    }
  }

  lemma ReadsNumber(env: Env, src: string, i: nat, lexeme: string)
    requires lexeme != "" && IsNumStart(lexeme[0]) && NumChars(lexeme) && env.numOk(lexeme)
    requires StartsAt(src, i, lexeme) && Stops(src, i + |lexeme|)
    ensures ParseNumber(env, src, i) == Some((Num(lexeme), i + |lexeme|))
  {
    CharAt(src, i, lexeme, 0);
    assert SkipSpace(src, i) == i;
    forall j | i < j < i + |lexeme| ensures IsNumChar(src[j]) {
      CharAt(src, i, lexeme, j - i);
    }
    NumEndStops(src, i + 1, |lexeme| - 1);
    assert src[i..i + |lexeme|] == lexeme;
    hide NumEnd, SkipSpace;
  }

  // ---------------------------------------------------------------------------
  // Reading values

  ghost predicate ReadAs(env: Env, i: nat, recur: nat, t: Syntax, r: Option<(Value, nat)>)
    requires Well(env, t)
  {
    r == if Shallow(t, recur) then Some((Meaning(env, t), i + |Text(t)|)) else None
  }

  /** Space in front of a value does not matter. */
  lemma SpaceBefore(env: Env, src: string, i: nat, j: nat, recur: nat)
    requires i <= |src| && j == SkipSpace(src, i)
    ensures ParseValue(env, src, i, recur) == ParseValue(env, src, j, recur)
    ensures ParseString(env, src, i) == ParseString(env, src, j)
  {
    assert SkipSpace(src, j) == j;
    hide SkipSpace, Elements, Members, Unescape, Closing, NumEnd, StartsAt;
  }

  lemma {:induction false} TextFirst(env: Env, t: Syntax)
    requires Well(env, t)
    ensures var s := Text(t); s != "" && !IsSpace(s[0]) && s[0] != ']' && s[0] != '}' && s[0] != ','
  {
    match t
    case SNumber(minus, int_, frac, exp) => NumberChars(minus, int_, frac, exp);
    case _ =>
  }

  lemma ReadsConstant(env: Env, src: string, i: nat, recur: nat, t: Syntax)
    requires recur < MAX_RECUR && (t.SNull? || t.STrue? || t.SFalse?) && StartsAt(src, i, Text(t))
    ensures ReadAs(env, i, recur, t, ParseValue(env, src, i, recur))
  {
    FirstOf(src, i, Text(t));
    assert SkipSpace(src, i) == i;
    FirstOf(src, i, "true");
    FirstOf(src, i, "false");
    FirstOf(src, i, "null");
    hide Members, Elements, Unescape, Closing, NumEnd, SkipSpace;
  }

  lemma ReadsNumeral(env: Env, src: string, i: nat, recur: nat, t: Syntax)
    requires Well(env, t) && t.SNumber? && recur < MAX_RECUR && StartsAt(src, i, Text(t)) && Stops(src, i + |Text(t)|)
    ensures ReadAs(env, i, recur, t, ParseValue(env, src, i, recur))
  {
    NumberChars(t.minus, t.int_, t.frac, t.exp);
    FirstOf(src, i, Text(t));
    hide WellNumber, StartsAt, NumberText, NumChars, ParseNumber, Stops;
    assert IsNumStart(Text(t)[0]);
    ValueAt(env, src, i, recur);
    hide ParseValue, IsNumStart;
    ReadsNumber(env, src, i, Text(t));
  }

  /** A text in place is read to its end, for what it means, or not at all if it is too deep. */
  lemma {:induction false} ReadsValue(env: Env, src: string, i: nat, recur: nat, t: Syntax)
    requires Well(env, t) && StartsAt(src, i, Text(t)) && Stops(src, i + |Text(t)|)
    ensures i <= |src| && ReadAs(env, i, recur, t, ParseValue(env, src, i, recur))
    decreases t, 3
  {
    if recur < MAX_RECUR {
      TextFirst(env, t);
      FirstOf(src, i, Text(t));
      match t
      case SNull => ReadsConstant(env, src, i, recur, t);
      case STrue => ReadsConstant(env, src, i, recur, t);
      case SFalse => ReadsConstant(env, src, i, recur, t);
      case SNumber(_, _, _, _) => ReadsNumeral(env, src, i, recur, t);
      case SString(pieces) =>
        ValueAt(env, src, i, recur);
        ReadsString(env, src, i, pieces);
      case SList(_, _) =>
        ValueAt(env, src, i, recur);
        ReadsList(env, src, i, recur, t);
      case SObject(_, _) =>
        ValueAt(env, src, i, recur);
        ReadsObject(env, src, i, recur, t);
    }
  }

  lemma {:induction false} ReadsList(env: Env, src: string, i: nat, recur: nat, t: Syntax)
    requires Well(env, t) && t.SList? && recur < MAX_RECUR && StartsAt(src, i, Text(t))
    ensures i < |src| && ReadAs(env, i, recur, t, Elements(env, src, i + 1, recur + 1, []))
    decreases t, 2
  {
    hide Elements, StartsAt, Text, ElementsText, Well, Meaning, ElementsMean, Shallow, Blank, ParseValue;
    ListIs(env, t, recur);
    if t.elems == [] {
      EmptyPlaces(src, i, '[', t.space, ']');
      SpaceBefore(env, src, i + 1, i + 1 + |t.space|, recur + 2);
      NoValue(env, src, i + 1 + |t.space|, recur + 2);
      ElementsEmpty(env, src, i + 1, recur + 1, i + 1 + |t.space|);
    } else {
      Split(src, i, "[", ElementsText(t, 0));
      ReadsElements(env, src, i + 1, recur + 1, t, 0);
    }
  }

  lemma ListIs(env: Env, t: Syntax, recur: nat)
    requires Well(env, t) && t.SList? && recur < MAX_RECUR
    ensures Text(t) == ['['] + (if t.elems == [] then t.space + [']'] else ElementsText(t, 0)) && Blank(t.space)
    ensures Meaning(env, t) == List(ElementsMean(env, t, |t.elems|)) && ElementsMean(env, t, 0) == []
    ensures Shallow(t, recur) <==> ElementsShallow(t, 0, recur + 2)
  {
    hide ElementsText, Blank;
  }

  lemma ElementIs(env: Env, t: Syntax, k: nat)
    requires Well(env, t) && t.SList? && k < |t.elems|
    ensures var e := t.elems[k];
            && Blank(e.before) && Well(env, e.syn) && Blank(e.after)
            && ElementsMean(env, t, k + 1) == ElementsMean(env, t, k) + [Meaning(env, e.syn)]
            && ElementsText(t, k) == e.before + (Text(e.syn) + (e.after
                 + ([MarkAfter(k, |t.elems|, ']')] + ElementsTail(t, k))))
  {
    hide Blank, Text;
    assert "]" == [']'] + "";
  }

  lemma ObjectIs(env: Env, t: Syntax, recur: nat)
    requires Well(env, t) && t.SObject? && recur < MAX_RECUR
    ensures Text(t) == ['{'] + (if t.members == [] then t.space + ['}'] else MembersText(t, 0)) && Blank(t.space)
    ensures Meaning(env, t) == Obj(MembersMean(env, t, |t.members|)) && MembersMean(env, t, 0) == []
    ensures Shallow(t, recur) <==> MembersShallow(t, 0, recur + 2)
  {
    hide MembersText, Blank, WellPieces, PiecesMean;
  }

  lemma MemberIs(env: Env, t: Syntax, k: nat)
    requires Well(env, t) && t.SObject? && k < |t.members|
    ensures var m := t.members[k];
            && Blank(m.before) && Blank(m.colon) && Blank(m.gap) && Well(env, m.syn) && Blank(m.after)
            && WellPieces(env, m.key) && NulFreeText(PiecesMean(env, m.key))
            && MembersMean(env, t, k + 1) == WithMember(MembersMean(env, t, k), PiecesMean(env, m.key), Meaning(env, m.syn))
            && MembersText(t, k) == Joined(m.before, StringText(m.key), m.colon, m.gap, Text(m.syn), m.after,
                 MarkAfter(k, |t.members|, '}'), MembersTail(t, k))
  {
    hide Blank, Text, StringText, PiecesMean, NulFreeText, WellPieces, WithMember;
    assert "}" == ['}'] + "";
  }

  /** Nothing but space between two brackets. */
  lemma EmptyPlaces(src: string, i: nat, open: char, space: string, close: char)
    requires Blank(space) && StartsAt(src, i, [open] + (space + [close])) && !IsSpace(close)
    ensures var at := i + 1 + |space|; at < |src| && SkipSpace(src, i + 1) == at && src[at] == close
  {
    Split(src, i, [open], space + [close]);
    Split(src, i + 1, space, [close]);
    CharAt(src, i + 1 + |space|, [close], 0);
    SkipBlank(src, i + 1, space);
  }

  lemma ElementsEmpty(env: Env, src: string, i: nat, recur: nat, at: nat)
    requires i <= at < |src| && recur <= MAX_RECUR && SkipSpace(src, i) == at && src[at] == ']' && ParseValue(env, src, i, recur + 1) == None
    ensures Elements(env, src, i, recur, []) == Some((List([]), at + 1))
  {
    hide ParseValue, SkipSpace;
  }

  lemma ElementsGo(env: Env, src: string, i: nat, recur: nat, acc: seq<Value>, at: nat, r: Option<(Value, nat)>)
    requires i <= at < |src| && recur <= MAX_RECUR && SkipSpace(src, i) == at && src[at] != ']' && ParseValue(env, src, i, recur + 1) == r
    ensures r.None? ==> Elements(env, src, i, recur, acc) == None
    ensures r.Some? && r.value.1 <= |src| ==>
      var stop := SkipSpace(src, r.value.1);
      && (stop < |src| && src[stop] == ',' ==> Elements(env, src, i, recur, acc) == Elements(env, src, stop + 1, recur, acc + [r.value.0]))
      && (stop < |src| && src[stop] == ']' ==> Elements(env, src, i, recur, acc) == Some((List(acc + [r.value.0]), stop + 1)))
  {
    assert forall j | 0 <= j <= |src| :: SkipSpace(src, SkipSpace(src, j)) == SkipSpace(src, j) by { SkipTwice(src); }
    hide ParseValue, SkipSpace;
  }

  lemma SkipTwice(src: string)
    ensures forall j | 0 <= j <= |src| :: SkipSpace(src, SkipSpace(src, j)) == SkipSpace(src, j)
  {
  }

  /** A text at its place, with space around it and `mark` behind that. */
  predicate Placed(src: string, i: nat, before: string, text: string, after: string, mark: char) {
    var at := i + |before|;
    var end := at + |text|;
    var stop := end + |after|;
    && at < end <= stop < |src| && SkipSpace(src, i) == at && SkipSpace(src, end) == stop
    && StartsAt(src, at, text) && Stops(src, end) && src[at] == text[0] && src[stop] == mark
  }

  lemma TextPlaced(src: string, i: nat, before: string, text: string, after: string, mark: char, tail: string)
    requires Blank(before) && Blank(after) && text != "" && !IsSpace(text[0])
    requires !IsSpace(mark) && !IsNumChar(mark) && StartsAt(src, i, before + (text + (after + ([mark] + tail))))
    ensures Placed(src, i, before, text, after, mark) && StartsAt(src, i + |before| + |text| + |after| + 1, tail)
  {
    hide StartsAt, Blank;
    Split(src, i, before, text + (after + ([mark] + tail)));
    var at := i + |before|;
    Split(src, at, text, after + ([mark] + tail));
    var end := at + |text|;
    Split(src, end, after, [mark] + tail);
    var stop := end + |after|;
    Split(src, stop, [mark], tail);
    CharAt(src, stop, [mark], 0);
    CharAt(src, at, text, 0);
    SkipBlank(src, i, before);
    SkipBlank(src, end, after);
    BlankStops(src, end, after);
  }

  function MarkAfter(k: nat, n: nat, close: char): char {
    if k + 1 == n then close else ','
  }

  function ElementsTail(t: Syntax, k: nat): string
    requires t.SList? && k < |t.elems|
  {
    if k + 1 == |t.elems| then "" else ElementsText(t, k + 1)
  }

  lemma ElementPlaced(env: Env, src: string, i: nat, t: Syntax, k: nat)
    requires Well(env, t) && t.SList? && k < |t.elems| && StartsAt(src, i, ElementsText(t, k))
    ensures var e, mark := t.elems[k], MarkAfter(k, |t.elems|, ']');
            && Well(env, e.syn) && Placed(src, i, e.before, Text(e.syn), e.after, mark) && Text(e.syn)[0] != ']'
            && |ElementsText(t, k)| == |e.before| + |Text(e.syn)| + |e.after| + 1 + |ElementsTail(t, k)|
            && StartsAt(src, i + |e.before| + |Text(e.syn)| + |e.after| + 1, ElementsTail(t, k))
  {
    hide Text, ElementsText, ElementsTail, ElementsMean, Well, StartsAt, Blank, Meaning, Placed;
    ElementIs(env, t, k);
    var e := t.elems[k];
    TextFirst(env, e.syn);
    TextPlaced(src, i, e.before, Text(e.syn), e.after, MarkAfter(k, |t.elems|, ']'), ElementsTail(t, k));
  }

  ghost predicate ElementsShallow(t: Syntax, k: nat, recur: nat)
    requires t.SList?
  {
    forall j | k <= j < |t.elems| :: Shallow(t.elems[j].syn, recur)
  }

  lemma ElementsShallowNext(t: Syntax, k: nat, recur: nat)
    requires t.SList? && k < |t.elems|
    ensures ElementsShallow(t, k, recur) <==> Shallow(t.elems[k].syn, recur) && (k + 1 == |t.elems| || ElementsShallow(t, k + 1, recur))
  {
    hide Shallow;
  }

  /** The elements from the `k`th on are all read, or one of them is too deep. */
  lemma {:induction false} ReadsElements(env: Env, src: string, i: nat, recur: nat, t: Syntax, k: nat)
    requires Well(env, t) && t.SList? && k < |t.elems| && recur <= MAX_RECUR && StartsAt(src, i, ElementsText(t, k))
    ensures i <= |src|
    ensures Elements(env, src, i, recur, ElementsMean(env, t, k))
            == if ElementsShallow(t, k, recur + 1)
               then Some((List(ElementsMean(env, t, |t.elems|)), i + |ElementsText(t, k)|)) else None
    decreases t, 1, |t.elems| - k
  {
    hide Blank, Elements, StartsAt, Text, ElementsText, Well, Meaning, ElementsMean, Shallow, ElementsShallow, ParseValue, SkipSpace, Stops;
    var e := t.elems[k];
    ElementIs(env, t, k);
    ElementPlaced(env, src, i, t, k);
    ElementsShallowNext(t, k, recur + 1);
    var at := i + |e.before|;
    SpaceBefore(env, src, i, at, recur + 1);
    ReadsValue(env, src, at, recur + 1, e.syn);
    ElementsGo(env, src, i, recur, ElementsMean(env, t, k), at, ParseValue(env, src, at, recur + 1));
    if Shallow(e.syn, recur + 1) && k + 1 < |t.elems| {
      ReadsElements(env, src, at + |Text(e.syn)| + |e.after| + 1, recur, t, k + 1);
    }
  }

  lemma BlankStops(src: string, i: nat, space: string)
    requires Blank(space) && StartsAt(src, i, space) && i + |space| < |src| && !IsNumChar(src[i + |space|])
    ensures Stops(src, i)
  {
    if space != "" {
      CharAt(src, i, space, 0);
    }
  }

  lemma {:induction false} ReadsObject(env: Env, src: string, i: nat, recur: nat, t: Syntax)
    requires Well(env, t) && t.SObject? && recur < MAX_RECUR && StartsAt(src, i, Text(t))
    ensures i < |src| && ReadAs(env, i, recur, t, Members(env, src, i + 1, recur + 1, []))
    decreases t, 2
  {
    hide Members, StartsAt, Text, MembersText, Well, Meaning, MembersMean, Shallow, Blank, ParseString;
    ObjectIs(env, t, recur);
    if t.members == [] {
      EmptyPlaces(src, i, '{', t.space, '}');
      MembersNone(env, src, i + 1, recur + 1, i + 1 + |t.space|);
    } else {
      Split(src, i, "{", MembersText(t, 0));
      ReadsMembers(env, src, i + 1, recur + 1, t, 0);
    }
  }

  lemma MembersNone(env: Env, src: string, i: nat, recur: nat, at: nat)
    requires i <= at < |src| && recur <= MAX_RECUR && SkipSpace(src, i) == at && src[at] == '}'
    ensures Members(env, src, i, recur, []) == Some((Obj([]), at + 1))
  {
    hide SkipSpace, Closing, Unescape;
  }

  lemma MembersStop(env: Env, src: string, i: nat, recur: nat, acc: seq<Field>, key: string, from: nat, colon: nat)
    requires i < from <= colon < |src| && recur <= MAX_RECUR && ParseString(env, src, i) == Some((key, from))
    requires SkipSpace(src, from) == colon && src[colon] == ':' && SkipSpace(src, colon + 1) < |src| && src[SkipSpace(src, colon + 1)] != '}'
    requires ParseValue(env, src, colon + 1, recur + 1) == None
    ensures Members(env, src, i, recur, acc) == None
  {
    hide ParseValue, SkipSpace, ParseString;
  }

  lemma MembersGo(env: Env, src: string, i: nat, recur: nat, acc: seq<Field>, key: string, from: nat, colon: nat, v: Value, end: nat)
    requires i < from <= colon < |src| && recur <= MAX_RECUR && ParseString(env, src, i) == Some((key, from))
    requires SkipSpace(src, from) == colon && src[colon] == ':' && end <= |src| && ParseValue(env, src, colon + 1, recur + 1) == Some((v, end))
    ensures var stop := SkipSpace(src, end);
      && (stop < |src| && src[stop] == ',' ==> Members(env, src, i, recur, acc) == Members(env, src, stop + 1, recur, SetField(acc, key, v)))
      && (stop < |src| && src[stop] == '}' ==> Members(env, src, i, recur, acc) == Some((Obj(SetField(acc, key, v)), stop + 1)))
  {
    MembersStep(env, src, i, recur, acc, key, from, colon, v, end);
    assert SkipSpace(src, SkipSpace(src, end)) == SkipSpace(src, end);
    hide ParseValue, SkipSpace, ParseString, SetField, Members;
  }

  lemma MembersStep(env: Env, src: string, i: nat, recur: nat, acc: seq<Field>, key: string, from: nat, colon: nat, v: Value, end: nat)
    requires i < from <= colon < |src| && recur <= MAX_RECUR && ParseString(env, src, i) == Some((key, from))
    requires SkipSpace(src, from) == colon && src[colon] == ':' && end <= |src| && ParseValue(env, src, colon + 1, recur + 1) == Some((v, end))
    ensures var stop, more := SkipSpace(src, end), SetField(acc, key, v);
            Members(env, src, i, recur, acc)
            == if stop < |src| && src[stop] == ',' then Members(env, src, stop + 1, recur, more) else CloseObject(src, stop, more)
  {
    hide ParseValue, SkipSpace, ParseString, SetField, CloseObject;
  }

  function MembersTail(t: Syntax, k: nat): string
    requires t.SObject? && k < |t.members|
  {
    if k + 1 == |t.members| then "" else MembersText(t, k + 1)
  }

  /** Where the colon of a member is. */
  function ColonAt(i: nat, m: Member): nat {
    i + |m.before| + |StringText(m.key)| + |m.colon|
  }

  lemma TwoPlaced(src: string, i: nat, before: string, key: string, colon: string, gap: string, text: string, after: string, mark: char, tail: string)
    requires Blank(before) && Blank(colon) && key != "" && !IsSpace(key[0]) && Blank(gap) && Blank(after) && text != "" && !IsSpace(text[0])
    requires !IsSpace(mark) && !IsNumChar(mark)
    requires StartsAt(src, i, Joined(before, key, colon, gap, text, after, mark, tail))
    ensures var at := i + |before| + |key| + |colon|;
            && Placed(src, i, before, key, colon, ':') && Placed(src, at + 1, gap, text, after, mark)
            && StartsAt(src, at + 1 + |gap| + |text| + |after| + 1, tail)
  {
    hide StartsAt, Blank, Placed;
    var value := gap + (text + (after + ([mark] + tail)));
    TextPlaced(src, i, before, key, colon, ':', value);
    TextPlaced(src, i + |before| + |key| + |colon| + 1, gap, text, after, mark, tail);
  }

  function Joined(before: string, key: string, colon: string, gap: string, text: string, after: string, mark: char, tail: string): (r: string)
    ensures |r| == |before| + |key| + |colon| + 1 + |gap| + |text| + |after| + 1 + |tail|
  {
    before + (key + (colon + ([':'] + (gap + (text + (after + ([mark] + tail)))))))
  }

  lemma MemberPlaced(env: Env, src: string, i: nat, t: Syntax, k: nat)
    requires Well(env, t) && t.SObject? && k < |t.members| && StartsAt(src, i, MembersText(t, k))
    ensures var m, mark := t.members[k], MarkAfter(k, |t.members|, '}');
            var colon := ColonAt(i, m);
            var end := colon + 1 + |m.gap| + |Text(m.syn)| + |m.after|;
            && Well(env, m.syn) && Placed(src, i, m.before, StringText(m.key), m.colon, ':')
            && Placed(src, colon + 1, m.gap, Text(m.syn), m.after, mark) && Text(m.syn) != "" && Text(m.syn)[0] != '}'
            && i + |MembersText(t, k)| == end + 1 + |MembersTail(t, k)| && StartsAt(src, end + 1, MembersTail(t, k))
  {
    hide *;
    MemberIs(env, t, k);
    var m := t.members[k];
    MarkFits(k, |t.members|, '}');
    QuoteFirst(m.key);
    TextFirst(env, m.syn);
    TwoPlaced(src, i, m.before, StringText(m.key), m.colon, m.gap, Text(m.syn), m.after, MarkAfter(k, |t.members|, '}'), MembersTail(t, k));
    ColonIs(i, m);
  }

  lemma QuoteFirst(ps: seq<Piece>)
    ensures StringText(ps) != "" && StringText(ps)[0] == '"' && !IsSpace(StringText(ps)[0])
  {
  }

  lemma MarkFits(k: nat, n: nat, close: char)
    requires close == ']' || close == '}'
    ensures !IsSpace(MarkAfter(k, n, close)) && !IsNumChar(MarkAfter(k, n, close))
  {
  }

  lemma ColonIs(i: nat, m: Member)
    ensures ColonAt(i, m) == i + |m.before| + |StringText(m.key)| + |m.colon|
  {
  }

  ghost predicate MembersShallow(t: Syntax, k: nat, recur: nat)
    requires t.SObject?
  {
    forall j | k <= j < |t.members| :: Shallow(t.members[j].syn, recur)
  }

  lemma MembersShallowNext(t: Syntax, k: nat, recur: nat)
    requires t.SObject? && k < |t.members|
    ensures MembersShallow(t, k, recur) <==> Shallow(t.members[k].syn, recur) && (k + 1 == |t.members| || MembersShallow(t, k + 1, recur))
  {
    hide Shallow;
  }

  lemma KeyOk(env: Env, t: Syntax, k: nat)
    requires Well(env, t) && t.SObject? && k < |t.members|
    ensures WellPieces(env, t.members[k].key) && NulFreeText(KeyOf(env, t, k)) && Well(env, t.members[k].syn)
    ensures MembersMean(env, t, k + 1) == SetField(MembersMean(env, t, k), KeyOf(env, t, k), Meaning(env, t.members[k].syn))
  {
    MemberIs(env, t, k);
    LastWins(env, t, k);
    SetIsWith(MembersMean(env, t, k), KeyOf(env, t, k), Meaning(env, t.members[k].syn));
    hide WellPieces, PiecesMean, NulFreeText, MembersMean, WithMember, SetField, Meaning, Distinct;
  }

  lemma PlacedIs(src: string, i: nat, before: string, text: string, after: string, mark: char)
    requires Placed(src, i, before, text, after, mark)
    ensures var at := i + |before|;
            var end := at + |text|;
            var stop := end + |after|;
            at < end <= stop < |src| && SkipSpace(src, i) == at && SkipSpace(src, end) == stop && StartsAt(src, at, text) && src[stop] == mark
  {
  }

  lemma KeyIs(env: Env, t: Syntax, k: nat)
    requires Well(env, t) && t.SObject? && k < |t.members| && WellPieces(env, t.members[k].key)
    ensures KeyOf(env, t, k) == PiecesMean(env, t.members[k].key)
  {
  }

  /** A key and the colon behind it. */
  lemma ReadsKey(env: Env, src: string, i: nat, t: Syntax, k: nat)
    requires Well(env, t) && t.SObject? && k < |t.members| && Placed(src, i, t.members[k].before, StringText(t.members[k].key), t.members[k].colon, ':')
    ensures var m := t.members[k];
            var from := i + |m.before| + |StringText(m.key)|;
            && i < from <= ColonAt(i, m) < |src| && ParseString(env, src, i) == Some((KeyOf(env, t, k), from))
            && SkipSpace(src, from) == ColonAt(i, m) && src[ColonAt(i, m)] == ':'
  {
    hide *;
    KeyOk(env, t, k);
    var m := t.members[k];
    var quote, from := i + |m.before|, i + |m.before| + |StringText(m.key)|;
    PlacedIs(src, i, m.before, StringText(m.key), m.colon, ':');
    SpaceBefore(env, src, i, quote, 0);
    KeyIs(env, t, k);
    ReadsString(env, src, quote, m.key);
    ColonIs(i, m);
  }

  /** The members from the `k`th on are all read, or the value of one of them is too deep. */
  lemma {:induction false} ReadsMembers(env: Env, src: string, i: nat, recur: nat, t: Syntax, k: nat)
    requires Well(env, t) && t.SObject? && k < |t.members| && recur <= MAX_RECUR && StartsAt(src, i, MembersText(t, k))
    ensures i <= |src|
    ensures Members(env, src, i, recur, MembersMean(env, t, k))
            == if MembersShallow(t, k, recur + 1)
               then Some((Obj(MembersMean(env, t, |t.members|)), i + |MembersText(t, k)|)) else None
    decreases t, 1, |t.members| - k
  {
    hide Blank, KeyOf, Members, StartsAt, Text, MembersText, Well, Meaning, MembersMean, MembersShallow, Shallow, ParseValue, ParseString, SkipSpace, Stops,
      StringText, SetField, WellPieces, PiecesMean, NulFreeText;
    var m, acc := t.members[k], MembersMean(env, t, k);
    MemberPlaced(env, src, i, t, k);
    KeyOk(env, t, k);
    ReadsKey(env, src, i, t, k);
    MembersShallowNext(t, k, recur + 1);
    var colon := ColonAt(i, m);
    var at := colon + 1 + |m.gap|;
    SpaceBefore(env, src, colon + 1, at, recur + 1);
    ReadsValue(env, src, at, recur + 1, m.syn);
    var key, from := KeyOf(env, t, k), i + |m.before| + |StringText(m.key)|;
    if Shallow(m.syn, recur + 1) {
      MembersGo(env, src, i, recur, acc, key, from, colon, Meaning(env, m.syn), at + |Text(m.syn)|);
      if k + 1 < |t.members| {
        ReadsMembers(env, src, at + |Text(m.syn)| + |m.after| + 1, recur, t, k + 1);
      }
    } else {
      MembersStop(env, src, i, recur, acc, key, from, colon);
    }
  }

  /** A whole text with space around it: decoded to what it means exactly if it is nested
      less than 512 deep, and not decoded at all otherwise. */
  lemma DecodesText(env: Env, before: string, t: Syntax, after: string)
    requires Well(env, t) && Blank(before) && Blank(after)
    ensures Decode(env, before + (Text(t) + after)) == if Within(t, 511) then Some(Meaning(env, t)) else None
  {
    ShallowWithin(t, 0, 511);
    hide Text, Well, Blank, StartsAt, ParseValue, Meaning, Shallow, Within;
    var src, text := before + (Text(t) + after), Text(t);
    TextFirst(env, t);
    WholePlaced(src, before, text, after);
    SpaceBefore(env, src, 0, |before|, 0);
    ReadsValue(env, src, |before|, 0, t);
  }

  lemma WholePlaced(src: string, before: string, text: string, after: string)
    requires src == before + (text + after) && Blank(before) && Blank(after) && text != "" && !IsSpace(text[0])
    ensures var at := |before|;
            SkipSpace(src, 0) == at && StartsAt(src, at, text) && Stops(src, at + |text|) && SkipSpace(src, at + |text|) == |src|
  {
    assert StartsAt(src, 0, src);
    hide StartsAt;
    Split(src, 0, before, text + after);
    Split(src, |before|, text, after);
    CharAt(src, |before|, text, 0);
    SkipBlank(src, 0, before);
    if after != "" {
      CharAt(src, |before| + |text|, after, 0);
    }
    SkipBlank(src, |before| + |text|, after);
  }

  // ---------------------------------------------------------------------------
  // A digit behind the four

  /** What is known of an encoding of code points such as UTF-8. */
  ghost predicate Encoding(utf8: nat -> Option<string>) {
    && utf8(0) == Some([NUL])
    && forall a, b | a != b && utf8(a).Some? && utf8(b).Some? :: !(utf8(a).value <= utf8(b).value)
  }

  lemma {:induction false} LongerNumber(s: string, k: nat)
    requires k < |s| && forall j | 0 <= j < |s| :: IsHex(s[j])
    ensures Number(Hex, s) >= 16 * Number(Hex, s[..k])
    decreases |s|
  {
    var r := s[..|s| - 1];
    assert Number(Hex, s) >= 16 * Number(Hex, r);
    if k < |r| {
      assert s[..k] == r[..k];
      hide Number;
      LongerNumber(r, k);
    }
  }

  lemma RunOfMore(s: string, i: nat, digits: string)
    requires FourHex(digits) && StartsAt(s, i, digits) && i + 4 < |s| && HexDigit(s[i + 4])
    ensures Run(Hex, s, i, 8) > 4
  {
    CharAt(s, i, digits, 0);
    CharAt(s, i, digits, 1);
    CharAt(s, i, digits, 2);
    CharAt(s, i, digits, 3);
    hide StartsAt;
    assert Run(Hex, s, i + 4, 4) > 0;
    assert Run(Hex, s, i + 3, 5) > 1;
    assert Run(Hex, s, i + 2, 6) > 2;
    assert Run(Hex, s, i + 1, 7) > 3;
  }

  lemma RunsLonger(s: string, i: nat, digits: string)
    requires FourHex(digits) && StartsAt(s, i, digits) && i + 4 < |s| && HexDigit(s[i + 4])
    ensures Run(Hex, s, i, 8) > 4 && RunValue(Hex, s, i, 8) >= 16 * CodePoint(digits)
  {
    hide Run, Number, CodePoint, StartsAt, HexDigit;
    RunOfMore(s, i, digits);
    RunDigits(Hex, s, i, 8);
    var run := s[i..i + Run(Hex, s, i, 8)];
    TextAt(s, i, digits);
    assert run[..4] == digits by { assert s[i..i + 4] == run[..4]; }
    forall j | 0 <= j < |run| ensures IsHex(run[j]) {
      assert run[j] == s[i + j] && IsDigit(Hex, s[i + j]);
    }
    LongerNumber(run, 4);
    NumberOfFour(digits);
  }

  ghost predicate Misread(meaning: string, r: Option<string>) {
    r.Some? ==> !(meaning <= r.value)
  }

  lemma NulFirst(rest: string)
    ensures !NulFreeText([NUL] + rest)
  {
    assert ([NUL] + rest)[0] == NUL;
  }

  lemma MisreadPoint(env: Env, t: string, i: nat, digits: string, rest: string)
    requires Encoding(env.utf8) && FourHex(digits) && env.utf8(CodePoint(digits)).Some?
    requires StartsAt(t, i, ['\\', 'u'] + digits) && i + 6 < |t| && HexDigit(t[i + 6])
    requires NulFreeText(env.utf8(CodePoint(digits)).value + rest)
    ensures Misread(env.utf8(CodePoint(digits)).value + rest, Unescape(env.utf8, t, i))
  {
    hide NulFreeText, CodePoint, FourHex, HexDigit, Unescape, Run, RunValue, StartsAt;
    NulFirst(rest);
    CharAt(t, i, ['\\', 'u'] + digits, 0);
    CharAt(t, i, ['\\', 'u'] + digits, 1);
    Split(t, i, ['\\', 'u'], digits);
    RunsLonger(t, i + 2, digits);
    UnescapePoint(env, t, i);
    OtherCode(env, CodePoint(digits), RunValue(Hex, t, i + 2, 8), rest, Unescape(env.utf8, t, i + 2 + Run(Hex, t, i + 2, 8)));
  }

  lemma OtherCode(env: Env, a: nat, b: nat, rest: string, more: Option<string>)
    requires Encoding(env.utf8) && a != b && env.utf8(a).Some?
    ensures env.utf8(b).Some? ==> Misread(env.utf8(a).value + rest, Prepend(env.utf8(b).value, more))
  {
    if env.utf8(b).Some? && more.Some? {
      var s, t := env.utf8(a).value, env.utf8(b).value;
      if s + rest <= t + more.value {
        Comparable(s, rest, t, more.value);
        assert false;
      }
    }
  }

  lemma Comparable(a: string, b: string, c: string, d: string)
    requires a + b <= c + d
    ensures a <= c || c <= a
  {
    assert forall k | 0 <= k < |a| :: a[k] == (a + b)[k] == (c + d)[k];
    assert forall k | 0 <= k < |c| :: c[k] == (c + d)[k];
  }

  lemma PrefixBehind(p: string, a: string, b: string)
    ensures p + a <= p + b <==> a <= b
  {
    assert (p + a)[|p|..] == a && (p + b)[|p|..] == b;
    if p + a <= p + b {
      forall k | 0 <= k < |a| ensures a[k] == b[k] {
        assert (p + a)[|p| + k] == (p + b)[|p| + k];
      }
    }
  }

  lemma NulFreeBehind(p: string, rest: string)
    requires NulFreeText(p + rest)
    ensures NulFreeText(rest)
  {
    assert rest == (p + rest)[|p|..];
  }

  lemma StillMisread(p: string, meaning: string, r: Option<string>)
    requires Misread(meaning, r)
    ensures Misread(p + meaning, Prepend(p, r))
  {
    if r.Some? {
      PrefixBehind(p, meaning, r.value);
    }
  }

  lemma MisreadFirst(env: Env, t: string, i: nat, ps: seq<Piece>)
    requires Encoding(env.utf8) && (forall k | 0 <= k < |ps| :: WellPiece(env, ps[k])) && RunsOn(ps)
    requires NulFreeText(PiecesMean(env, ps)) && i <= |t| && t[i..] == PiecesText(ps)
    ensures Misread(PiecesMean(env, ps), Unescape(env.utf8, t, i))
  {
    hide Unescape, Encoding, Misread, NulFreeText, CodePoint;
    PieceNext(t, i, ps);
    hide PiecesText, HexDigit;
    MisreadPoint(env, t, i, ps[0].digits, PiecesMean(env, ps[1..]));
  }

  lemma {:induction false} MisreadPieces(env: Env, t: string, i: nat, ps: seq<Piece>)
    requires Encoding(env.utf8) && (forall k | 0 <= k < |ps| :: WellPiece(env, ps[k])) && !Apart(ps)
    requires NulFreeText(PiecesMean(env, ps)) && i <= |t| && t[i..] == PiecesText(ps)
    ensures Misread(PiecesMean(env, ps), Unescape(env.utf8, t, i))
    decreases |ps|
  {
    hide *;
    NothingApart();
    ApartNext(ps);
    if RunsOn(ps) {
      MisreadFirst(env, t, i, ps);
    } else {
      PieceStep(env, t, i, ps);
      MeanFirst(env, ps);
      var p, rest, end := PieceMeans(env, ps[0]), PiecesMean(env, ps[1..]), i + |PieceText(ps[0])|;
      NulFreeBehind(p, rest);
      MisreadPieces(env, t, end, ps[1..]);
      StillMisread(p, rest, Unescape(env.utf8, t, end));
    }
  }

  lemma NothingApart()
    ensures Apart([])
  {
  }

  lemma MeanFirst(env: Env, ps: seq<Piece>)
    requires ps != [] && forall k | 0 <= k < |ps| :: WellPiece(env, ps[k])
    ensures (forall k | 0 <= k < |ps[1..]| :: WellPiece(env, ps[1..][k]))
    ensures PiecesMean(env, ps) == PieceMeans(env, ps[0]) + PiecesMean(env, ps[1..])
  {
    hide WellPiece, PieceMeans;
  }

  lemma {:induction false} CutPrefix(s: string)
    ensures Cut(s) <= s
  {
    if s != [] && s[0] != NUL {
      CutPrefix(s[1..]);
      assert s == [s[0]] + s[1..];
    }
  }

  lemma QuoteDecodes(env: Env, src: string)
    requires src != "" && src[0] == '"'
    ensures var r := ParseString(env, src, 0);
            Decode(env, src) == if r.None? || SkipSpace(src, r.value.1) < |src| then None else Some(Str(r.value.0))
  {
    ValueAt(env, src, 0, 0);
    hide ParseString, Members, Elements, SkipSpace;
  }

  /** The text of a string is decoded to what it means exactly if no digit follows four. */
  lemma StringExactly(env: Env, ps: seq<Piece>)
    requires Encoding(env.utf8) && (forall i | 0 <= i < |ps| :: WellPiece(env, ps[i])) && NulFreeText(PiecesMean(env, ps))
    ensures Decode(env, StringText(ps)) == Some(Str(PiecesMean(env, ps))) <==> Apart(ps)
  {
    hide Unescape, Closing, ParseString, NulFreeText, PiecesMean, WellPiece, Apart, PiecesText, Cut, Decode, Encoding;
    var src, text := StringText(ps), PiecesText(ps);
    assert StartsAt(src, 0, src) && text[0..] == text;
    if Apart(ps) {
      ReadsString(env, src, 0, ps);
    } else {
      Split(src, 0, ['"'], text + ['"']);
      ClosingPieces(env, src, 1, ps);
      QuotedAt(env, src, 0, text, 1 + |text|);
      MisreadPieces(env, text, 0, ps);
      var r := Unescape(env.utf8, text, 0);
      if r.Some? {
        CutPrefix(r.value);
      }
    }
    QuoteDecodes(env, src);
  }

  /** It is not `AB`. */
  lemma DigitBehind(env: Env)
    requires Encoding(env.utf8) && env.utf8(0x41) == Some("A")
    ensures Decode(env, "\"\\u0041B\"") != Some(Str("AB"))
  {
    var ps := [Point("0041"), Plain('B')];
    assert ps[1..] == [Plain('B')];
    assert PiecesText(ps) == PieceText(ps[0]) + PiecesText(ps[1..]) == "\\u0041B";
    assert StringText(ps) == "\"\\u0041B\"";
    assert CodePoint("0041") == 0x41;
    assert PiecesMean(env, ps) == PieceMeans(env, ps[0]) + PiecesMean(env, ps[1..]) == "AB";
    hide Decode, Encoding;
    StringExactly(env, ps);
  }
}
