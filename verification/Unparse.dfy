/** Printing source trees with only the parentheses that precedence needs; the grammar reads them back. */
module Unparse {
  import opened Values
  import opened Ast
  import opened Surface
  import opened Syntax

  /** 0 to 2 for binary operators, 3 for a minus sign, 4 for what needs no parentheses anywhere. */
  function ExprLevel(e: SExpr): nat {
    match e
    case SBin(op, _, _) => Level(op)
    case SNeg(_) => 3
    case _ => 4
  }

  /** `e` where an operand of level `lvl` or tighter is wanted. */
  function PrintE(e: SExpr, lvl: nat): Tokens
    decreases e, 1
  {
    if ExprLevel(e) < lvl then [LParen] + Bare(e) + [RParen] else Bare(e)
  }

  function Bare(e: SExpr): Tokens
    decreases e, 0
  {
    match e
    case SInt(i) => [IntTok(i)]
    case SDbl(d) => [DblTok(d)]
    case SVar(x) => [Ident(x)]
    case SIndex(x, i) => [Ident(x), LBracket] + PrintE(i, 0) + [RBracket]
    case SNeg(a) => [Sym(Sub)] + PrintE(a, 3)
    case SBin(op, a, b) => PrintE(a, Level(op)) + [Sym(op)] + PrintE(b, Level(op) + 1)
    case SCall(f, args) => [Ident(f), LParen] + PrintArgs(args) + [RParen]
  }

  function PrintArgs(es: seq<SExpr>): Tokens
    decreases es, 0
  {
    if es == [] then []
    else if |es| == 1 then PrintE(es[0], 0)
    else PrintE(es[0], 0) + [Comma] + PrintArgs(es[1..])
  }

  /** One token in front. */
  lemma Cons(t: Token, ts: Tokens)
    ensures Head([t] + ts) == t && Tail([t] + ts) == ts
    ensures Expect([t] + ts, t) == Parsed((), ts)
  {
  }

  /** What may follow an operand: no operator of level `lvl` or tighter, nothing that continues a name. */
  predicate Quiet(rest: Tokens, lvl: nat) {
    var t := Head(rest);
    !(t.Sym? && Level(t.op) >= lvl) && t != LParen && t != LBracket
  }

  predicate StartsExpr(t: Token) {
    t.IntTok? || t.DblTok? || t.Ident? || t == LParen || t == Sym(Sub)
  }

  lemma {:induction false} FirstOfExpr(e: SExpr, lvl: nat)
    ensures PrintE(e, lvl) != [] && StartsExpr(PrintE(e, lvl)[0])
    ensures Bare(e) != [] && StartsExpr(Bare(e)[0])
  {
    if e.SBin? { FirstOfExpr(e.a, Level(e.op)); }
  }

  /** A binary expression printed bare, read at its own level or a looser one. */
  lemma {:induction false} ParseBare(e: SExpr, lvl: nat, rest: Tokens)
    requires e.SBin? && lvl <= Level(e.op) && Quiet(rest, lvl + 1)
    ensures ParseLevel(lvl, Bare(e) + rest) == ParseMore(lvl, e, rest)
    decreases e, 1, 3 - lvl
  {
    hide Head, Tail, ParseUnary;
    if lvl < Level(e.op) {
      ParseBare(e, lvl + 1, rest);
    } else {
      var pa, pb := PrintE(e.a, lvl), PrintE(e.b, lvl + 1);
      var more := [Sym(e.op)] + (pb + rest);
      Cons(Sym(e.op), pb + rest);
      ParseAtLevel(e.a, lvl, more);
      assert Bare(e) + rest == pa + more;
      ParseOperandPrinted(e.b, lvl, rest);
    }
  }

  lemma {:induction false} ParseAtLevel(e: SExpr, lvl: nat, rest: Tokens)
    requires lvl <= 2 && Quiet(rest, lvl + 1)
    ensures ParseLevel(lvl, PrintE(e, lvl) + rest) == ParseMore(lvl, e, rest)
    decreases e, 2, 6 - 2 * lvl
  {
    if e.SBin? && lvl <= Level(e.op) {
      ParseBare(e, lvl, rest);
    } else {
      ParseOperandPrinted(e, lvl, rest);
    }
  }

  lemma {:induction false} ParseOperandPrinted(e: SExpr, lvl: nat, rest: Tokens)
    requires lvl <= 2 && Quiet(rest, lvl + 1)
    ensures ParseOperand(lvl, PrintE(e, lvl + 1) + rest) == Parsed(e, rest)
    decreases e, 2, 5 - 2 * lvl
  {
    if lvl == 2 {
      ParseUnaryPrinted(e, rest);
    } else {
      ParseAtLevel(e, lvl + 1, rest);
    }
  }

  lemma {:induction false} ParseUnaryPrinted(e: SExpr, rest: Tokens)
    requires Quiet(rest, 3)
    ensures ParseUnary(PrintE(e, 3) + rest) == Parsed(e, rest)
    decreases e, 2, 0
  {
    hide ParseUnary, ParsePrimary, Head, Tail;
    Cons(RParen, rest);
    Cons(RBracket, rest);
    match e
    case SBin(_, _, _) =>
      ParseBare(e, 0, [RParen] + rest);
      ParseParenthesised(e, rest);
    case SNeg(a) =>
      ParseUnaryPrinted(a, rest);
      NegPrinted(a, rest);
    case SIndex(_, i) =>
      ParseExprPrinted(i, [RBracket] + rest);
      IndexPrinted(e, rest);
    case SCall(_, args) =>
      ParseArgsPrinted(args, [RParen] + rest);
      CallPrinted(e, rest);
    case _ => AtomPrinted(e, rest);
  }

  lemma ParseParenthesised(e: SExpr, rest: Tokens)
    requires e.SBin? && ParseLevel(0, Bare(e) + ([RParen] + rest)) == ParseMore(0, e, [RParen] + rest)
    ensures ParseUnary(PrintE(e, 3) + rest) == Parsed(e, rest)
  {
    hide ParseLevel, ParseMore, Head, Tail, Expect, Bare;
    var more := [RParen] + rest;
    assert PrintE(e, 3) + rest == [LParen] + (Bare(e) + more);
    Cons(LParen, Bare(e) + more);
    Cons(RParen, rest);
    StopAt(e, more);
    assert ParseExpr(Bare(e) + more) == Parsed(e, more);
  }

  lemma NegPrinted(a: SExpr, rest: Tokens)
    requires ParseUnary(PrintE(a, 3) + rest) == Parsed(a, rest)
    ensures ParseUnary(PrintE(SNeg(a), 3) + rest) == Parsed(SNeg(a), rest)
  {
    hide ParsePrimary, Head, Tail;
    assert PrintE(SNeg(a), 3) + rest == [Sym(Sub)] + (PrintE(a, 3) + rest);
    Cons(Sym(Sub), PrintE(a, 3) + rest);
  }

  lemma IndexPrinted(e: SExpr, rest: Tokens)
    requires e.SIndex? && ParseExpr(PrintE(e.idx, 0) + ([RBracket] + rest)) == Parsed(e.idx, [RBracket] + rest)
    ensures ParseUnary(PrintE(e, 3) + rest) == Parsed(e, rest)
  {
    hide ParseExpr, Head, Tail, Expect;
    var idx := PrintE(e.idx, 0) + ([RBracket] + rest);
    assert PrintE(e, 3) + rest == [Ident(e.x)] + ([LBracket] + idx);
    Cons(Ident(e.x), [LBracket] + idx);
    Cons(LBracket, idx);
    Cons(RBracket, rest);
  }

  lemma CallPrinted(e: SExpr, rest: Tokens)
    requires e.SCall? && ParseArgs(PrintArgs(e.args) + ([RParen] + rest)) == Parsed(e.args, [RParen] + rest)
    ensures ParseUnary(PrintE(e, 3) + rest) == Parsed(e, rest)
  {
    hide ParseExpr, ParseArgs, PrintArgs, Head, Tail, Expect;
    var args := PrintArgs(e.args) + ([RParen] + rest);
    assert PrintE(e, 3) + rest == [Ident(e.f)] + ([LParen] + args);
    Cons(Ident(e.f), [LParen] + args);
    Cons(LParen, args);
    Cons(RParen, rest);
  }

  lemma AtomPrinted(e: SExpr, rest: Tokens)
    requires (e.SInt? || e.SDbl? || e.SVar?) && Quiet(rest, 3)
    ensures ParseUnary(PrintE(e, 3) + rest) == Parsed(e, rest)
  {
    hide ParseExpr, ParseArgs, Tail;
    var t := match e case SInt(i) => IntTok(i) case SDbl(d) => DblTok(d) case SVar(x) => Ident(x);
    assert PrintE(e, 3) + rest == [t] + rest;
    Cons(t, rest);
  }

  /** The outermost loop stops at a token that is no operator. */
  lemma StopAt(e: SExpr, rest: Tokens)
    requires !Head(rest).Sym?
    ensures ParseMore(0, e, rest) == Parsed(e, rest)
  {
  }

  /** Reading back an expression gives the expression, and stops right after it. */
  lemma {:induction false} ParseExprPrinted(e: SExpr, rest: Tokens)
    requires Quiet(rest, 0)
    ensures ParseExpr(PrintE(e, 0) + rest) == Parsed(e, rest)
    decreases e, 3
  {
    ParseAtLevel(e, 0, rest);
    StopAt(e, rest);
  }

  lemma {:induction false} ParseArgsPrinted(es: seq<SExpr>, rest: Tokens)
    requires Head(rest) == RParen
    ensures ParseArgs(PrintArgs(es) + rest) == Parsed(es, rest)
    decreases es, 0
  {
    hide ParseExpr, PrintE;
    if es == [] {
      assert PrintArgs(es) + rest == rest;
    } else {
      if |es| == 1 {
        ParseExprPrinted(es[0], rest);
        FirstOfExprHead(es[0], rest);
        assert es == [es[0]];
      } else {
        var more := [Comma] + (PrintArgs(es[1..]) + rest);
        assert PrintArgs(es) + rest == PrintE(es[0], 0) + more;
        ParseExprPrinted(es[0], more);
        FirstOfExprHead(es[0], more);
        ParseArgsPrinted(es[1..], rest);
        assert [es[0]] + es[1..] == es;
      }
    }
  }

  /** A comma may stand behind the last argument. */
  lemma {:induction false} TrailingCommaInCall(es: seq<SExpr>, rest: Tokens)
    requires es != [] && Head(rest) == RParen
    ensures ParseArgs(PrintArgs(es) + ([Comma] + rest)) == Parsed(es, rest)
    decreases es
  {
    hide ParseExpr, PrintE;
    Cons(Comma, rest);
    if |es| == 1 {
      ParseExprPrinted(es[0], [Comma] + rest);
      FirstOfExprHead(es[0], [Comma] + rest);
      assert es == [es[0]] + [];
    } else {
      var last := [Comma] + rest;
      var more := [Comma] + (PrintArgs(es[1..]) + last);
      assert PrintArgs(es) + last == PrintE(es[0], 0) + more;
      ParseExprPrinted(es[0], more);
      FirstOfExprHead(es[0], more);
      TrailingCommaInCall(es[1..], rest);
      assert [es[0]] + es[1..] == es;
    }
  }

  // ----- statements -----

  function Kw(t: Type): Token { if Elem(t).TInt? then KwInt else KwDouble }

  function PrintS(st: SStmt): Tokens
    decreases st, 1
  {
    match st
    case SBlock(body) => [LBrace] + PrintStmts(body) + [RBrace]
    case SDecl(ty, x, None) => [Kw(ty), Ident(x), Semi]
    case SDecl(ty, x, Some(e)) => [Kw(ty), Ident(x), Equals] + PrintE(e, 0) + [Semi]
    case SDeclArray(ty, x, len) => [Kw(ty), Ident(x), LBracket] + PrintE(len, 0) + [RBracket, Semi]
    case SAssign(x, e) => [Ident(x), Equals] + PrintE(e, 0) + [Semi]
    case SAssignIndex(x, i, e) => [Ident(x), LBracket] + PrintE(i, 0) + [RBracket, Equals] + PrintE(e, 0) + [Semi]
    case SIf(c, thn, None) => [KwIf, LParen] + PrintE(c, 0) + [RParen] + PrintS(thn)
    case SIf(c, thn, Some(els)) => [KwIf, LParen] + PrintE(c, 0) + [RParen] + PrintS(thn) + [KwElse] + PrintS(els)
    case SWhile(c, body) => [KwWhile, LParen] + PrintE(c, 0) + [RParen] + PrintS(body)
    case SReturn(None) => [KwReturn, Semi]
    case SReturn(Some(e)) => [KwReturn] + PrintE(e, 0) + [Semi]
    case SExprStmt(e) => PrintE(e, 0) + [Semi]
    case SPrint(e) => [KwPrint, LParen] + PrintE(e, 0) + [RParen, Semi]
  }

  function PrintStmts(ss: seq<SStmt>): Tokens
    decreases ss, 0
  {
    if ss == [] then [] else PrintS(ss[0]) + PrintStmts(ss[1..])
  }

  /** Ends in an `if` that an `else` could still join. */
  predicate Open(st: SStmt) {
    match st
    case SIf(_, _, None) => true
    case SIf(_, _, Some(els)) => Open(els)
    case SWhile(_, body) => Open(body)
    case _ => false
  }

  /** The printed form begins with a call. */
  predicate StartsCall(e: SExpr) {
    match e
    case SCall(_, _) => true
    case SBin(op, a, _) => ExprLevel(a) >= Level(op) && StartsCall(a)
    case _ => false
  }

  predicate IsScalar(t: Type) { t.TInt? || t.TDouble? }

  /** Trees the grammar can produce: scalar base types, expression statements that begin with a call, no
      `else` that belongs to an inner `if`. */
  predicate Printable(st: SStmt) {
    match st
    case SBlock(body) => AllPrintable(body)
    case SDecl(ty, _, _) => IsScalar(ty)
    case SDeclArray(ty, _, _) => IsScalar(ty)
    case SIf(_, thn, els) => Printable(thn) && (els.Some? ==> !Open(thn) && Printable(els.value))
    case SWhile(_, body) => Printable(body)
    case SExprStmt(e) => StartsCall(e)
    case _ => true
  }

  predicate AllPrintable(ss: seq<SStmt>) {
    forall i :: 0 <= i < |ss| ==> Printable(ss[i])
  }

  predicate StartsStmt(t: Token) {
    t.Ident? || t in {LBrace, KwInt, KwDouble, KwIf, KwWhile, KwReturn, KwPrint}
  }

  lemma {:induction false} FirstOfCall(e: SExpr, lvl: nat, rest: Tokens)
    requires StartsCall(e) && lvl <= ExprLevel(e)
    ensures var ts := PrintE(e, lvl) + rest; |ts| >= 2 && ts[0].Ident? && ts[1] == LParen
  {
    if e.SBin? {
      var more := [Sym(e.op)] + PrintE(e.b, Level(e.op) + 1) + rest;
      FirstOfCall(e.a, Level(e.op), more);
      assert PrintE(e, lvl) + rest == PrintE(e.a, Level(e.op)) + more;
    }
  }

  lemma FirstOfStmt(st: SStmt, rest: Tokens)
    requires Printable(st)
    ensures StartsStmt(Head(PrintS(st) + rest))
  {
    if st.SExprStmt? { FirstOfCall(st.e, 0, [Semi] + rest); }
  }

  lemma ConditionPrinted(e: SExpr, rest: Tokens)
    ensures ParseCondition([LParen] + PrintE(e, 0) + [RParen] + rest) == Parsed(e, rest)
  {
    hide ParseExpr;
    var more := [RParen] + rest;
    assert [LParen] + PrintE(e, 0) + [RParen] + rest == [LParen] + (PrintE(e, 0) + more);
    ParseExprPrinted(e, more);
  }

  /** `e` and then one punctuation token. */
  lemma ExprThen(e: SExpr, t: Token, rest: Tokens)
    requires t in {Semi, RBracket, RParen, Equals}
    ensures ParseExpr(PrintE(e, 0) + ([t] + rest)) == Parsed(e, [t] + rest)
    ensures Expect([t] + rest, t) == Parsed((), rest)
  {
    hide ParseExpr;
    ParseExprPrinted(e, [t] + rest);
  }

  lemma {:induction false} ParseStmtPrinted(st: SStmt, rest: Tokens)
    requires Printable(st) && (Open(st) ==> Head(rest) != KwElse)
    ensures ParseStmt(PrintS(st) + rest) == Parsed(st, rest)
    decreases st, 1
  {
    hide ParseExpr, PrintE, ParseStmt;
    match st
    case SBlock(_) => ParseBlockPrinted(st, rest);
    case SIf(_, _, None) => ParseIfThenPrinted(st, rest);
    case SIf(_, _, Some(_)) => ParseIfElsePrinted(st, rest);
    case SWhile(_, _) => ParseWhilePrinted(st, rest);
    case SReturn(_) => ParseReturnPrinted(st, rest);
    case SPrint(e) => ParsePrintPrinted(e, rest);
    case SDecl(_, _, _) => ParseDeclPrinted(st, rest);
    case SDeclArray(_, _, _) => ParseDeclPrinted(st, rest);
    case SAssign(_, _) => ParseAssignPrinted(st, rest);
    case SAssignIndex(_, _, _) => ParseAssignIndexPrinted(st, rest);
    case SExprStmt(e) => ParseExprStmtPrinted(e, rest);
  }

  lemma FirstOfExprHead(e: SExpr, rest: Tokens)
    ensures StartsExpr(Head(PrintE(e, 0) + rest))
  {
    FirstOfExpr(e, 0);
  }

  lemma {:induction false} ParseBlockPrinted(st: SStmt, rest: Tokens)
    requires st.SBlock? && Printable(st)
    ensures ParseStmt(PrintS(st) + rest) == Parsed(st, rest)
    decreases st, 0
  {
    hide Head, Tail, Expect, PrintStmts;
    var more := [RBrace] + rest;
    assert PrintS(st) + rest == [LBrace] + (PrintStmts(st.body) + more);
    Cons(LBrace, PrintStmts(st.body) + more);
    Cons(RBrace, rest);
    ParseStmtsPrinted(st.body, more);
  }

  lemma {:induction false} ParseIfThenPrinted(st: SStmt, rest: Tokens)
    requires st.SIf? && st.els.None? && Printable(st) && Head(rest) != KwElse
    ensures ParseStmt(PrintS(st) + rest) == Parsed(st, rest)
    decreases st, 0
  {
    hide ParseCondition, PrintE, Head, Tail, Expect;
    var more := PrintS(st.thn) + rest;
    var test := [LParen] + PrintE(st.cond, 0) + [RParen] + more;
    assert PrintS(st) + rest == [KwIf] + test;
    Cons(KwIf, test);
    ConditionPrinted(st.cond, more);
    ParseStmtPrinted(st.thn, rest);
  }

  lemma {:induction false} ParseIfElsePrinted(st: SStmt, rest: Tokens)
    requires st.SIf? && st.els.Some? && Printable(st) && (Open(st) ==> Head(rest) != KwElse)
    ensures ParseStmt(PrintS(st) + rest) == Parsed(st, rest)
    decreases st, 0
  {
    hide ParseCondition, PrintE, Head, Tail, Expect;
    var els := st.els.value;
    var other := [KwElse] + (PrintS(els) + rest);
    var more := PrintS(st.thn) + other;
    var test := [LParen] + PrintE(st.cond, 0) + [RParen] + more;
    assert PrintS(st) + rest == [KwIf] + test;
    Cons(KwIf, test);
    Cons(KwElse, PrintS(els) + rest);
    ConditionPrinted(st.cond, more);
    ParseStmtPrinted(st.thn, other);
    ParseStmtPrinted(els, rest);
  }

  lemma {:induction false} ParseWhilePrinted(st: SStmt, rest: Tokens)
    requires st.SWhile? && Printable(st) && (Open(st) ==> Head(rest) != KwElse)
    ensures ParseStmt(PrintS(st) + rest) == Parsed(st, rest)
    decreases st, 0
  {
    hide ParseCondition, PrintE, Head, Tail, Expect;
    var more := PrintS(st.body1) + rest;
    var test := [LParen] + PrintE(st.cond, 0) + [RParen] + more;
    assert PrintS(st) + rest == [KwWhile] + test;
    Cons(KwWhile, test);
    ConditionPrinted(st.cond, more);
    ParseStmtPrinted(st.body1, rest);
  }

  lemma ParseReturnPrinted(st: SStmt, rest: Tokens)
    requires st.SReturn?
    ensures ParseStmt(PrintS(st) + rest) == Parsed(st, rest)
  {
    hide ParseExpr, PrintE, Head, Tail, Expect;
    Cons(Semi, rest);
    match st.value
    case None =>
      assert PrintS(st) + rest == [KwReturn] + ([Semi] + rest);
      Cons(KwReturn, [Semi] + rest);
    case Some(e) =>
      var more := PrintE(e, 0) + ([Semi] + rest);
      assert PrintS(st) + rest == [KwReturn] + more;
      Cons(KwReturn, more);
      FirstOfExprHead(e, [Semi] + rest);
      ExprThen(e, Semi, rest);
  }

  lemma ParsePrintPrinted(e: SExpr, rest: Tokens)
    ensures ParseStmt(PrintS(SPrint(e)) + rest) == Parsed(SPrint(e), rest)
  {
    hide ParseCondition, PrintE, Head, Tail, Expect;
    var test := [LParen] + PrintE(e, 0) + [RParen] + ([Semi] + rest);
    assert PrintS(SPrint(e)) + rest == [KwPrint] + test;
    Cons(KwPrint, test);
    Cons(Semi, rest);
    ConditionPrinted(e, [Semi] + rest);
  }

  lemma ParseDeclPrinted(st: SStmt, rest: Tokens)
    requires Printable(st) && (st.SDecl? || st.SDeclArray?)
    ensures ParseStmt(PrintS(st) + rest) == Parsed(st, rest)
  {
    hide ParseDecl, PrintE;
    match st
    case SDecl(ty, x, None) => DeclPrinted(ty, x, [Semi], st, rest);
    case SDecl(ty, x, Some(e)) => DeclPrinted(ty, x, [Equals] + PrintE(e, 0) + [Semi], st, rest);
    case SDeclArray(ty, x, len) => DeclPrinted(ty, x, [LBracket] + PrintE(len, 0) + [RBracket, Semi], st, rest);
  }

  /** What follows the name of a declaration. */
  lemma DeclPrinted(ty: Type, x: Name, tail: Tokens, st: SStmt, rest: Tokens)
    requires IsScalar(ty) && PrintS(st) == [Kw(ty), Ident(x)] + tail
    requires (st.SDecl? && st == SDecl(ty, x, st.init)) || (st.SDeclArray? && st == SDeclArray(ty, x, st.len))
    requires match st
             case SDecl(_, _, None) => tail == [Semi]
             case SDecl(_, _, Some(e)) => tail == [Equals] + PrintE(e, 0) + [Semi]
             case SDeclArray(_, _, len) => tail == [LBracket] + PrintE(len, 0) + [RBracket, Semi]
             case _ => false
    ensures ParseStmt(PrintS(st) + rest) == Parsed(st, rest)
  {
    hide ParseDecl, PrintE, PrintS, Head, Tail;
    var after := [Ident(x)] + (tail + rest);
    assert PrintS(st) + rest == [Kw(ty)] + after;
    Cons(Kw(ty), after);
    match st
    case SDecl(_, _, None) => PlainDeclPrinted(ty, x, rest);
    case SDecl(_, _, Some(e)) =>
      assert tail + rest == [Equals] + (PrintE(e, 0) + ([Semi] + rest));
      InitDeclPrinted(ty, x, e, rest);
    case SDeclArray(_, _, len) =>
      assert tail + rest == [LBracket] + (PrintE(len, 0) + ([RBracket] + ([Semi] + rest)));
      ArrayDeclPrinted(ty, x, len, rest);
  }

  lemma PlainDeclPrinted(ty: Type, x: Name, rest: Tokens)
    ensures ParseDecl(ty, [Ident(x)] + ([Semi] + rest)) == Parsed(SDecl(ty, x, None), rest)
  {
    hide ParseExpr, Head, Tail;
    Cons(Ident(x), [Semi] + rest);
    Cons(Semi, rest);
  }

  lemma InitDeclPrinted(ty: Type, x: Name, e: SExpr, rest: Tokens)
    ensures ParseDecl(ty, [Ident(x)] + ([Equals] + (PrintE(e, 0) + ([Semi] + rest)))) ==
            Parsed(SDecl(ty, x, Some(e)), rest)
  {
    hide ParseExpr, PrintE, Head, Tail;
    var value := PrintE(e, 0) + ([Semi] + rest);
    Cons(Ident(x), [Equals] + value);
    Cons(Equals, value);
    Cons(Semi, rest);
    ExprThen(e, Semi, rest);
  }

  lemma ArrayDeclPrinted(ty: Type, x: Name, len: SExpr, rest: Tokens)
    ensures ParseDecl(ty, [Ident(x)] + ([LBracket] + (PrintE(len, 0) + ([RBracket] + ([Semi] + rest)))))
            == Parsed(SDeclArray(ty, x, len), rest)
  {
    hide ParseExpr, PrintE, Head, Tail;
    var size := PrintE(len, 0) + ([RBracket] + ([Semi] + rest));
    Cons(Ident(x), [LBracket] + size);
    Cons(LBracket, size);
    Cons(Semi, rest);
    ExprThen(len, RBracket, [Semi] + rest);
  }

  lemma ParseAssignPrinted(st: SStmt, rest: Tokens)
    requires st.SAssign?
    ensures ParseStmt(PrintS(st) + rest) == Parsed(st, rest)
  {
    hide ParseExpr, PrintE, Head, Tail, Expect;
    var value := PrintE(st.e, 0) + ([Semi] + rest);
    assert PrintS(st) + rest == [Ident(st.x)] + ([Equals] + value);
    Cons(Ident(st.x), [Equals] + value);
    Cons(Equals, value);
    ExprThen(st.e, Semi, rest);
  }

  lemma ParseAssignIndexPrinted(st: SStmt, rest: Tokens)
    requires st.SAssignIndex?
    ensures ParseStmt(PrintS(st) + rest) == Parsed(st, rest)
  {
    hide ParseExpr, PrintE, Head, Tail, Expect;
    var value := PrintE(st.e, 0) + ([Semi] + rest);
    var more := [Equals] + value;
    var index := PrintE(st.idx, 0) + ([RBracket] + more);
    assert PrintS(st) + rest == [Ident(st.x)] + ([LBracket] + index);
    Cons(Ident(st.x), [LBracket] + index);
    Cons(LBracket, index);
    Cons(Equals, value);
    ExprThen(st.idx, RBracket, more);
    ExprThen(st.e, Semi, rest);
  }

  lemma ParseExprStmtPrinted(e: SExpr, rest: Tokens)
    requires StartsCall(e)
    ensures ParseStmt(PrintS(SExprStmt(e)) + rest) == Parsed(SExprStmt(e), rest)
  {
    hide ParseExpr, PrintE, Expect;
    var ts := PrintE(e, 0) + ([Semi] + rest);
    FirstOfCall(e, 0, [Semi] + rest);
    assert PrintS(SExprStmt(e)) + rest == ts;
    assert Head(Tail(ts)) == ts[1];
    ExprThen(e, Semi, rest);
  }

  lemma {:induction false} ParseStmtsPrinted(ss: seq<SStmt>, rest: Tokens)
    requires AllPrintable(ss) && Head(rest) == RBrace
    ensures ParseStmts(PrintStmts(ss) + rest) == Parsed(ss, rest)
    decreases ss, 0
  {
    hide ParseStmt, PrintS;
    if ss == [] {
      assert PrintStmts(ss) + rest == rest;
    } else {
      var more := PrintStmts(ss[1..]) + rest;
      assert PrintStmts(ss) + rest == PrintS(ss[0]) + more;
      FirstOfStmt(ss[0], more);
      FirstOfStmts(ss[1..], rest);
      ParseStmtPrinted(ss[0], more);
      ParseStmtsPrinted(ss[1..], rest);
      assert [ss[0]] + ss[1..] == ss;
    }
  }

  lemma FirstOfStmts(ss: seq<SStmt>, rest: Tokens)
    requires AllPrintable(ss) && Head(rest) == RBrace
    ensures Head(PrintStmts(ss) + rest) != KwElse
  {
    if ss != [] {
      FirstOfStmt(ss[0], PrintStmts(ss[1..]) + rest);
      assert PrintStmts(ss) + rest == PrintS(ss[0]) + (PrintStmts(ss[1..]) + rest);
    } else {
      assert PrintStmts(ss) + rest == rest;
    }
  }

  // ----- programs -----

  function PrintParam(p: Param): Tokens {
    [Kw(p.ty), Ident(p.x)] + if IsArray(p.ty) then [LBracket, RBracket] else []
  }

  function PrintParams(ps: seq<Param>): Tokens {
    if ps == [] then []
    else if |ps| == 1 then PrintParam(ps[0])
    else PrintParam(ps[0]) + [Comma] + PrintParams(ps[1..])
  }

  function PrintFunc(f: SFunc): Tokens {
    [Kw(f.ret), Ident(f.name), LParen] + PrintParams(f.params) + [RParen, LBrace] + PrintStmts(f.body) + [RBrace]
  }

  function PrintProgram(p: SProgram): Tokens {
    if p == [] then [] else PrintFunc(p[0]) + PrintProgram(p[1..])
  }

  predicate PrintableProgram(p: SProgram) {
    forall k :: 0 <= k < |p| ==> IsScalar(p[k].ret) && AllPrintable(p[k].body)
  }

  lemma ParseParamPrinted(p: Param, rest: Tokens)
    requires Head(rest) == Comma || Head(rest) == RParen
    ensures ParseParam(PrintParam(p) + rest) == Parsed(p, rest)
  {
    hide Head, Tail;
    var after := if IsArray(p.ty) then [LBracket] + ([RBracket] + rest) else rest;
    assert PrintParam(p) + rest == [Kw(p.ty)] + ([Ident(p.x)] + after);
    Cons(Kw(p.ty), [Ident(p.x)] + after);
    Cons(Ident(p.x), after);
    if IsArray(p.ty) {
      Cons(LBracket, [RBracket] + rest);
      Cons(RBracket, rest);
    }
  }

  lemma FirstOfParam(p: Param, rest: Tokens)
    ensures Head(PrintParam(p) + rest) == Kw(p.ty)
  {
  }

  lemma {:induction false} ParseParamsPrinted(ps: seq<Param>, rest: Tokens)
    requires Head(rest) == RParen
    ensures ParseParams(PrintParams(ps) + rest) == Parsed(ps, rest)
  {
    hide ParseParam, PrintParam;
    if ps == [] {
      assert PrintParams(ps) + rest == rest;
    } else if |ps| == 1 {
      ParseParamPrinted(ps[0], rest);
      FirstOfParam(ps[0], rest);
      assert ps == [ps[0]];
    } else {
      var more := [Comma] + (PrintParams(ps[1..]) + rest);
      assert PrintParams(ps) + rest == PrintParam(ps[0]) + more;
      ParseParamPrinted(ps[0], more);
      FirstOfParam(ps[0], more);
      ParseParamsPrinted(ps[1..], rest);
      assert [ps[0]] + ps[1..] == ps;
    }
  }

  lemma KwIsNoEnd()
    ensures forall ty :: Kw(ty) != RParen && Kw(ty) != Eof
  {
  }

  /** Nor does one behind the last parameter matter. */
  lemma {:induction false} TrailingCommaInHeader(ps: seq<Param>, rest: Tokens)
    requires ps != [] && Head(rest) == RParen
    ensures ParseParams(PrintParams(ps) + ([Comma] + rest)) == Parsed(ps, rest)
  {
    hide ParseParam, PrintParam, Head, Tail, Kw;
    Cons(Comma, rest);
    KwIsNoEnd();
    var last := [Comma] + rest;
    if |ps| == 1 {
      ParseParamPrinted(ps[0], last);
      FirstOfParam(ps[0], last);
      assert ps == [ps[0]] + [];
    } else {
      var more := [Comma] + (PrintParams(ps[1..]) + last);
      assert PrintParams(ps) + last == PrintParam(ps[0]) + more;
      Cons(Comma, PrintParams(ps[1..]) + last);
      ParseParamPrinted(ps[0], more);
      FirstOfParam(ps[0], more);
      TrailingCommaInHeader(ps[1..], rest);
      assert [ps[0]] + ps[1..] == ps;
    }
  }

  lemma ParseFuncPrinted(f: SFunc, rest: Tokens)
    requires IsScalar(f.ret) && AllPrintable(f.body)
    ensures ParseFunc(PrintFunc(f) + rest) == Parsed(f, rest)
  {
    hide ParseParams, ParseStmts, PrintParams, PrintStmts, Head, Tail, Expect;
    var end := [RBrace] + rest;
    var body := PrintStmts(f.body) + end;
    var more := [RParen] + ([LBrace] + body);
    assert PrintFunc(f) + rest == [Kw(f.ret)] + ([Ident(f.name)] + ([LParen] + (PrintParams(f.params) + more)));
    var params := PrintParams(f.params) + more;
    Cons(Kw(f.ret), [Ident(f.name)] + ([LParen] + params));
    Cons(Ident(f.name), [LParen] + params);
    Cons(LParen, params);
    Cons(RParen, [LBrace] + body);
    Cons(LBrace, body);
    Cons(RBrace, rest);
    ParseParamsPrinted(f.params, more);
    ParseStmtsPrinted(f.body, end);
  }

  /** A program ends at the first end-of-input token.  The lexer returns that token for a stray character as
      well: it prints a message, and the compiler goes on to succeed without what follows. */
  lemma {:induction false} ProgramEndsAtEof(p: SProgram, rest: Tokens)
    requires PrintableProgram(p) && Head(rest) == Eof
    ensures ParseProgram(PrintProgram(p) + rest) == Parsed(p, rest)
    decreases |p|
  {
    hide ParseFunc, PrintFunc, AllPrintable;
    if p == [] {
      assert PrintProgram(p) + rest == rest;
    } else {
      var more := PrintProgram(p[1..]) + rest;
      assert PrintProgram(p) + rest == PrintFunc(p[0]) + more;
      ParseFuncPrinted(p[0], more);
      FirstOfFunc(p[0], more);
      ProgramEndsAtEof(p[1..], rest);
      assert [p[0]] + p[1..] == p;
    }
  }

  lemma FirstOfFunc(f: SFunc, rest: Tokens)
    ensures Head(PrintFunc(f) + rest) == Kw(f.ret)
  {
  }

  /** The grammar reads back every printed program. */
  lemma ParseProgramPrinted(p: SProgram)
    requires PrintableProgram(p)
    ensures ParseProgram(PrintProgram(p)) == Parsed(p, [])
  {
    hide ParseProgram, PrintProgram;
    ProgramEndsAtEof(p, []);
    assert PrintProgram(p) + [] == PrintProgram(p);
  }
}
