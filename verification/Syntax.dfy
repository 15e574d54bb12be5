/** The grammar: recursive descent on the sequence of tokens that are still to come.  These functions build
    source trees; the parser proper does the same walk and elaborates as it goes. */
module Syntax {
  import opened Values
  import opened Ast
  import opened Surface

  datatype Token =
    | Eof
    | IntTok(i: int) | DblTok(d: Lit) | Ident(x: Name)
    | KwInt | KwDouble | KwIf | KwElse | KwWhile | KwReturn | KwPrint
    | LParen | RParen | LBrace | RBrace | LBracket | RBracket
    | Semi | Comma | Equals
    | Sym(op: Op)

  type Tokens = seq<Token>

  /** The current token; past the end the lexer keeps returning end of input. */
  function Head(ts: Tokens): Token { if ts == [] then Eof else ts[0] }

  function Tail(ts: Tokens): Tokens { if ts == [] then [] else ts[1..] }

  /** A tree and what follows it, or a diagnostic. */
  datatype Parse<+T> = Parsed(v: T, rest: Tokens) | Failed {
    predicate IsFailure() { Failed? }

    function PropagateFailure<U>(): Parse<U>
      requires Failed?
    {
      Failed
    }

    function Extract(): (T, Tokens)
      requires Parsed?
    {
      (v, rest)
    }
  }

  function Expect(ts: Tokens, t: Token): (r: Parse<()>)
    ensures r.Parsed? && t != Eof ==> |r.rest| < |ts|
  {
    if Head(ts) == t then Parsed((), Tail(ts)) else Failed
  }

  // ----- expressions -----

  /** Comparison, sum, product: the three levels of binary operators, loosest first. */
  function Level(op: Op): (l: nat)
    ensures l <= 2
  {
    if IsComparison(op) then 0 else if op.Add? || op.Sub? then 1 else 2
  }

  predicate StartsOp(ts: Tokens, lvl: nat) {
    Head(ts).Sym? && Level(Head(ts).op) == lvl
  }

  function ParseExpr(ts: Tokens): (r: Parse<SExpr>)
    ensures r.Parsed? ==> |r.rest| < |ts|
    decreases |ts|, 6
  {
    ParseLevel(0, ts)
  }

  function ParseLevel(lvl: nat, ts: Tokens): (r: Parse<SExpr>)
    requires lvl <= 2
    ensures r.Parsed? ==> |r.rest| < |ts|
    decreases |ts|, 5 - lvl
  {
    var (a, ts1) :- ParseOperand(lvl, ts);
    ParseMore(lvl, a, ts1)
  }

  function ParseOperand(lvl: nat, ts: Tokens): (r: Parse<SExpr>)
    requires lvl <= 2
    ensures r.Parsed? ==> |r.rest| < |ts|
    decreases |ts|, 5 - lvl, 0
  {
    if lvl == 2 then ParseUnary(ts) else ParseLevel(lvl + 1, ts)
  }

  /** The loop of a level: operands are folded to the left. */
  function ParseMore(lvl: nat, a: SExpr, ts: Tokens): (r: Parse<SExpr>)
    requires lvl <= 2
    ensures r.Parsed? ==> |r.rest| <= |ts|
    decreases |ts|, 6
  {
    if StartsOp(ts, lvl) then
      var (b, ts1) :- ParseOperand(lvl, Tail(ts));
      ParseMore(lvl, SBin(Head(ts).op, a, b), ts1)
    else Parsed(a, ts)
  }

  function ParseUnary(ts: Tokens): (r: Parse<SExpr>)
    ensures r.Parsed? ==> |r.rest| < |ts|
    decreases |ts|, 2
  {
    if Head(ts) == Sym(Sub) then
      var (e, ts1) :- ParseUnary(Tail(ts));
      Parsed(SNeg(e), ts1)
    else ParsePrimary(ts)
  }

  function ParsePrimary(ts: Tokens): (r: Parse<SExpr>)
    ensures r.Parsed? ==> |r.rest| < |ts|
    decreases |ts|, 1
  {
    match Head(ts)
    case IntTok(i) => Parsed(SInt(i), Tail(ts))
    case DblTok(d) => Parsed(SDbl(d), Tail(ts))
    case LParen =>
      var (e, ts1) :- ParseExpr(Tail(ts));
      var (_, ts2) :- Expect(ts1, RParen);
      Parsed(e, ts2)
    case Ident(x) =>
      var ts1 := Tail(ts);
      if Head(ts1) == LParen then
        var (args, ts2) :- ParseArgs(Tail(ts1));
        var (_, ts3) :- Expect(ts2, RParen);
        Parsed(SCall(x, args), ts3)
      else if Head(ts1) == LBracket then
        var (idx, ts2) :- ParseExpr(Tail(ts1));
        var (_, ts3) :- Expect(ts2, RBracket);
        Parsed(SIndex(x, idx), ts3)
      else Parsed(SVar(x), ts1)
    case _ => Failed
  }

  /** Arguments up to `)`; a comma may trail. */
  function ParseArgs(ts: Tokens): (r: Parse<seq<SExpr>>)
    ensures r.Parsed? ==> |r.rest| <= |ts|
    decreases |ts|, 7
  {
    if Head(ts) == RParen || Head(ts) == Eof then Parsed([], ts)
    else
      var (e, ts1) :- ParseExpr(ts);
      if Head(ts1) == Comma then
        var (es, ts2) :- ParseArgs(Tail(ts1));
        Parsed([e] + es, ts2)
      else Parsed([e], ts1)
  }

  // ----- statements -----

  function TypeOfKw(t: Token): Option<Type> {
    if t == KwInt then Some(TInt) else if t == KwDouble then Some(TDouble) else None
  }

  function ParseStmt(ts: Tokens): (r: Parse<SStmt>)
    ensures r.Parsed? ==> |r.rest| < |ts|
    decreases |ts|, 1
  {
    match Head(ts)
    case LBrace =>
      var (ss, ts1) :- ParseStmts(Tail(ts));
      var (_, ts2) :- Expect(ts1, RBrace);
      Parsed(SBlock(ss), ts2)
    case KwInt => ParseDecl(TInt, Tail(ts))
    case KwDouble => ParseDecl(TDouble, Tail(ts))
    case KwIf =>
      var (c, ts1) :- ParseCondition(Tail(ts));
      var (thn, ts2) :- ParseStmt(ts1);
      if Head(ts2) == KwElse then
        var (els, ts3) :- ParseStmt(Tail(ts2));
        Parsed(SIf(c, thn, Some(els)), ts3)
      else Parsed(SIf(c, thn, None), ts2)
    case KwWhile =>
      var (c, ts1) :- ParseCondition(Tail(ts));
      var (body, ts2) :- ParseStmt(ts1);
      Parsed(SWhile(c, body), ts2)
    case KwReturn =>
      if Head(Tail(ts)) == Semi then Parsed(SReturn(None), Tail(Tail(ts)))
      else
        var (e, ts1) :- ParseExpr(Tail(ts));
        var (_, ts2) :- Expect(ts1, Semi);
        Parsed(SReturn(Some(e)), ts2)
    case KwPrint =>
      var (e, ts1) :- ParseCondition(Tail(ts));
      var (_, ts2) :- Expect(ts1, Semi);
      Parsed(SPrint(e), ts2)
    case Ident(x) => ParseLvalue(x, ts)
    case _ => Failed
  }

  /** An expression in parentheses, as `if`, `while` and `print` want it. */
  function ParseCondition(ts: Tokens): (r: Parse<SExpr>)
    ensures r.Parsed? ==> |r.rest| < |ts|
  {
    var (_, ts1) :- Expect(ts, LParen);
    var (e, ts2) :- ParseExpr(ts1);
    var (_, ts3) :- Expect(ts2, RParen);
    Parsed(e, ts3)
  }

  /** After the type of a declaration. */
  function ParseDecl(ty: Type, ts: Tokens): (r: Parse<SStmt>)
    ensures r.Parsed? ==> |r.rest| < |ts|
  {
    if !Head(ts).Ident? then Failed
    else
      var x := Head(ts).x;
      var ts1 := Tail(ts);
      if Head(ts1) == LBracket then
        var (len, ts2) :- ParseExpr(Tail(ts1));
        var (_, ts3) :- Expect(ts2, RBracket);
        var (_, ts4) :- Expect(ts3, Semi);
        Parsed(SDeclArray(ty, x, len), ts4)
      else if Head(ts1) == Equals then
        var (e, ts2) :- ParseExpr(Tail(ts1));
        var (_, ts3) :- Expect(ts2, Semi);
        Parsed(SDecl(ty, x, Some(e)), ts3)
      else
        var (_, ts2) :- Expect(ts1, Semi);
        Parsed(SDecl(ty, x, None), ts2)
  }

  /** A statement that begins with a name: a call, or an assignment. */
  function ParseLvalue(x: Name, ts: Tokens): (r: Parse<SStmt>)
    requires Head(ts) == Ident(x)
    ensures r.Parsed? ==> |r.rest| < |ts|
  {
    var ts1 := Tail(ts);
    if Head(ts1) == LParen then
      var (e, ts2) :- ParseExpr(ts);
      var (_, ts3) :- Expect(ts2, Semi);
      Parsed(SExprStmt(e), ts3)
    else if Head(ts1) == LBracket then
      var (idx, ts2) :- ParseExpr(Tail(ts1));
      var (_, ts3) :- Expect(ts2, RBracket);
      var (_, ts4) :- Expect(ts3, Equals);
      var (e, ts5) :- ParseExpr(ts4);
      var (_, ts6) :- Expect(ts5, Semi);
      Parsed(SAssignIndex(x, idx, e), ts6)
    else
      var (_, ts2) :- Expect(ts1, Equals);
      var (e, ts3) :- ParseExpr(ts2);
      var (_, ts4) :- Expect(ts3, Semi);
      Parsed(SAssign(x, e), ts4)
  }

  function ParseStmts(ts: Tokens): (r: Parse<seq<SStmt>>)
    ensures r.Parsed? ==> |r.rest| <= |ts|
    decreases |ts|, 2
  {
    if Head(ts) == RBrace || Head(ts) == Eof then Parsed([], ts)
    else
      var (st, ts1) :- ParseStmt(ts);
      var (ss, ts2) :- ParseStmts(ts1);
      Parsed([st] + ss, ts2)
  }

  // ----- functions -----

  /** Parameters up to `)`; a comma may trail. */
  function ParseParams(ts: Tokens): (r: Parse<seq<Param>>)
    ensures r.Parsed? ==> |r.rest| <= |ts|
    decreases |ts|
  {
    if Head(ts) == RParen || Head(ts) == Eof then Parsed([], ts)
    else
      var (p, ts1) :- ParseParam(ts);
      if Head(ts1) == Comma then
        var (ps, ts2) :- ParseParams(Tail(ts1));
        Parsed([p] + ps, ts2)
      else Parsed([p], ts1)
  }

  function ParseParam(ts: Tokens): (r: Parse<Param>)
    ensures r.Parsed? ==> |r.rest| < |ts|
  {
    var ty := TypeOfKw(Head(ts));
    var ts1 := Tail(ts);
    if ty.None? || !Head(ts1).Ident? then Failed
    else
      var x := Head(ts1).x;
      var ts2 := Tail(ts1);
      if Head(ts2) == LBracket then
        var (_, ts3) :- Expect(Tail(ts2), RBracket);
        Parsed(Param(ArrayOf(ty.value), x), ts3)
      else Parsed(Param(ty.value, x), ts2)
  }

  function ParseFunc(ts: Tokens): (r: Parse<SFunc>)
    ensures r.Parsed? ==> |r.rest| < |ts|
  {
    var ty := TypeOfKw(Head(ts));
    var ts1 := Tail(ts);
    if ty.None? || !Head(ts1).Ident? then Failed
    else
      var (_, ts2) :- Expect(Tail(ts1), LParen);
      var (params, ts3) :- ParseParams(ts2);
      var (_, ts4) :- Expect(ts3, RParen);
      var (_, ts5) :- Expect(ts4, LBrace);
      var (body, ts6) :- ParseStmts(ts5);
      var (_, ts7) :- Expect(ts6, RBrace);
      Parsed(SFunc(ty.value, Head(ts1).x, params, body), ts7)
  }

  /** Functions up to the first end-of-input token. */
  function ParseProgram(ts: Tokens): Parse<SProgram>
    decreases |ts|
  {
    if Head(ts) == Eof then Parsed([], ts)
    else
      var (f, ts1) :- ParseFunc(ts);
      var (fs, ts2) :- ParseProgram(ts1);
      Parsed([f] + fs, ts2)
  }
}
