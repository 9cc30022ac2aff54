/** What the printer writes is the text of the value in the grammar, with no space in it and
    with exactly the characters escaped that the printer escapes. */
module JsonPrinted {
  import opened Basics
  import opened JsonText
  import G = JsonGrammar

  // ---------------------------------------------------------------------------
  // The text of a value

  function PieceOf(c: char): G.Piece {
    if c == '"' || c == '\\' || c == '/' then G.Letter(c)
    else if c == '\U{8}' then G.Letter('b') else if c == '\U{c}' then G.Letter('f')
    else if c == '\n' then G.Letter('n') else if c == '\r' then G.Letter('r') else if c == '\t' then G.Letter('t')
    else G.Plain(c)
  }

  function PiecesOf(s: string): (ps: seq<G.Piece>)
    ensures |ps| == |s|
  {
    seq(|s|, i requires 0 <= i < |s| => PieceOf(s[i]))
  }

  function SyntaxOf(v: Value): (t: G.Syntax)
    decreases v
  {
    match v
    case Null => G.SNull
    case Str(s) => G.SString(PiecesOf(s))
    case Num(lexeme) => G.SNumber(false, lexeme, "", G.NoExponent)
    case List(elems) => G.SList("", seq(|elems|, i requires 0 <= i < |elems| => G.Element("", SyntaxOf(elems[i]), "")))
    case Obj(fields) =>
      G.SObject("", seq(|fields|, i requires 0 <= i < |fields| => G.Member("", PiecesOf(fields[i].key), "", "", SyntaxOf(fields[i].val), "")))
  }

  // ---------------------------------------------------------------------------
  // Strings

  lemma {:induction false} EscapedIsText(s: string)
    ensures Escaped(s) == G.PiecesText(PiecesOf(s))
    decreases |s|
  {
    if s != "" {
      EscapedFront(s);
      EscapedIsText(s[1..]);
      assert PiecesOf(s)[1..] == PiecesOf(s[1..]);
      assert EscChar(s[0]) == G.PieceText(PieceOf(s[0]));
      hide EscChar, PieceOf;
    }
  }

  lemma QuotedIsText(s: string)
    ensures Quoted(s) == G.StringText(PiecesOf(s))
  {
    hide Escaped, PiecesOf;
    EscapedIsText(s);
  }

  lemma PieceMeansIt(env: Env, c: char)
    ensures G.WellPiece(env, PieceOf(c)) && G.PieceMeans(env, PieceOf(c)) == [c]
  {
  }

  /** The pieces stand for the string itself. */
  lemma {:induction false} PiecesMeanIt(env: Env, s: string)
    ensures G.Apart(PiecesOf(s)) && (forall i | 0 <= i < |s| :: G.WellPiece(env, PiecesOf(s)[i])) && G.PiecesMean(env, PiecesOf(s)) == s
    decreases |s|
  {
    forall i | 0 <= i < |s| ensures G.WellPiece(env, PiecesOf(s)[i]) {
      PieceMeansIt(env, s[i]);
    }
    if s != "" {
      PiecesMeanIt(env, s[1..]);
      PieceMeansIt(env, s[0]);
      assert PiecesOf(s)[1..] == PiecesOf(s[1..]);
      assert s == [s[0]] + s[1..];
      hide PieceOf, G.WellPiece;
    }
    assert G.Apart(PiecesOf(s)) by { hide G.PiecesMean; }
  }

  // ---------------------------------------------------------------------------
  // Values

  /** What is printed. */
  lemma {:induction false} EncIsText(v: Value)
    ensures Enc(v) == G.Text(SyntaxOf(v))
    decreases v, 1
  {
    hide *;
    match v
    case Null => AtomIs(v);
    case Num(lexeme) => AtomIs(v);
    case Str(s) =>
      AtomIs(v);
      QuotedIsText(s);
    case List(elems) =>
      ListIs(v);
      ListRestIsText(v, 0);
    case Obj(fields) =>
      ObjIs(v);
      ObjRestIsText(v, 0);
  }

  lemma AtomIs(v: Value)
    ensures v.Null? || v.Num? ==> Enc(v) == G.Text(SyntaxOf(v))
    ensures v.Str? ==> Enc(v) == Quoted(v.s) && G.Text(SyntaxOf(v)) == G.StringText(PiecesOf(v.s))
  {
    hide Quoted, G.StringText, PiecesOf, ListRest, ObjRest, G.ElementsText, G.MembersText;
  }

  lemma ListIs(v: Value)
    requires v.List?
    ensures Enc(v) == "[" + ListRest(v, 0)
    ensures G.Text(SyntaxOf(v)) == "[" + (if |v.elems| == 0 then "]" else "" + G.ElementsText(SyntaxOf(v), 0))
  {
    hide ListRest, G.ElementsText;
    assert "" + "]" == "]";
  }

  lemma ObjIs(v: Value)
    requires v.Obj?
    ensures Enc(v) == "{" + ObjRest(v, 0)
    ensures G.Text(SyntaxOf(v)) == "{" + (if |v.fields| == 0 then "}" else "" + G.MembersText(SyntaxOf(v), 0))
  {
    hide ObjRest, G.MembersText, PiecesOf;
    assert "" + "}" == "}";
  }

  lemma {:induction false} ListRestIsText(v: Value, k: nat)
    requires v.List? && k <= |v.elems|
    ensures ListRest(v, k) == (if k == |v.elems| then "]" else (if k > 0 then "," else "") + G.ElementsText(SyntaxOf(v), k))
    decreases v, 0, |v.elems| - k
  {
    if k < |v.elems| {
      hide *;
      EncIsText(v.elems[k]);
      ListRestIsText(v, k + 1);
      ElementIs(v, k);
      ThreeParts(if k > 0 then "," else "", Enc(v.elems[k]), ListRest(v, k + 1));
    }
  }

  lemma ElementIs(v: Value, k: nat)
    requires v.List? && k < |v.elems|
    ensures SyntaxOf(v).SList? && |SyntaxOf(v).elems| == |v.elems|
    ensures ListRest(v, k) == (if k > 0 then "," else "") + Enc(v.elems[k]) + ListRest(v, k + 1)
    ensures G.ElementsText(SyntaxOf(v), k)
         == G.Text(SyntaxOf(v.elems[k])) + (if k + 1 == |v.elems| then "]" else "," + G.ElementsText(SyntaxOf(v), k + 1))
  {
    hide Enc, G.Text;
  }

  lemma {:induction false} ObjRestIsText(v: Value, k: nat)
    requires v.Obj? && k <= |v.fields|
    ensures ObjRest(v, k) == (if k == |v.fields| then "}" else (if k > 0 then "," else "") + G.MembersText(SyntaxOf(v), k))
    decreases v, 0, |v.fields| - k
  {
    if k < |v.fields| {
      hide *;
      EncIsText(v.fields[k].val);
      QuotedIsText(v.fields[k].key);
      ObjRestIsText(v, k + 1);
      MemberIs(v, k);
      FiveGrouped(if k > 0 then "," else "", Quoted(v.fields[k].key), ":", Enc(v.fields[k].val), ObjRest(v, k + 1));
    }
  }

  lemma FiveGrouped(a: string, b: string, c: string, d: string, e: string)
    ensures a + b + c + d + e == a + (b + (c + (d + e)))
  {
  }

  lemma MemberIs(v: Value, k: nat)
    requires v.Obj? && k < |v.fields|
    ensures SyntaxOf(v).SObject? && |SyntaxOf(v).members| == |v.fields|
    ensures ObjRest(v, k) == (if k > 0 then "," else "") + Quoted(v.fields[k].key) + ":" + Enc(v.fields[k].val) + ObjRest(v, k + 1)
    ensures G.MembersText(SyntaxOf(v), k)
         == G.StringText(PiecesOf(v.fields[k].key)) + (":" + (G.Text(SyntaxOf(v.fields[k].val))
              + (if k + 1 == |v.fields| then "}" else "," + G.MembersText(SyntaxOf(v), k + 1))))
  {
    hide Enc, Quoted, G.Text, G.StringText, PiecesOf;
  }
}
