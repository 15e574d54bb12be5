/** The parser and end-of-input tokens.  The lexer hands one out for every stray character too, so a token
    sequence can hold several.  Parsing stops at the first: it accepts exactly when it accepts the tokens before
    it, with the same tree, and everything from it on is left over. */
module EndOfInput {
  import opened Values
  import opened Ast
  import opened Surface
  import opened Syntax

  /** The tokens before the first end of input. */
  function Before(ts: Tokens): (r: Tokens)
    ensures |r| <= |ts|
  {
    if Head(ts) == Eof then [] else [ts[0]] + Before(ts[1..])
  }

  /** The tokens from the first end of input on. */
  function Onwards(ts: Tokens): Tokens {
    if Head(ts) == Eof then ts else Onwards(ts[1..])
  }

  /** `p` is a parse of `ts` and `q` one of the tokens before the first end of input: both fail, or both give the
      same tree, stop at the same place, and have not gone past the end of input. */
  ghost predicate Tracks<T(!new)>(ts: Tokens, p: Parse<T>, q: Parse<T>) {
    if p.Failed? then q.Failed?
    else q == Parsed(p.v, Before(p.rest)) && Onwards(p.rest) == Onwards(ts)
  }

  /** The current token is the same in both, and so is what is behind it. */
  lemma SameHead(ts: Tokens)
    ensures Head(Before(ts)) == Head(ts)
    ensures Head(ts) != Eof ==> Before(Tail(ts)) == Tail(Before(ts)) && Onwards(Tail(ts)) == Onwards(ts)
    ensures Head(ts) == Eof ==> Before(ts) == []
  {
  }

  lemma SameExpect(ts: Tokens, t: Token)
    requires t != Eof
    ensures Tracks(ts, Expect(ts, t), Expect(Before(ts), t))
  {
    hide Before, Onwards, Head, Tail;
    SameHead(ts);
  }

  // ----- expressions -----

  lemma {:induction false} SameExpr(ts: Tokens)
    ensures Tracks(ts, ParseExpr(ts), ParseExpr(Before(ts)))
    decreases |ts|, 6
  {
    hide Before, Onwards;
    SameLevel(0, ts);
  }

  lemma {:induction false} SameLevel(lvl: nat, ts: Tokens)
    requires lvl <= 2
    ensures Tracks(ts, ParseLevel(lvl, ts), ParseLevel(lvl, Before(ts)))
    decreases |ts|, 5 - lvl
  {
    hide Before, Onwards;
    SameOperand(lvl, ts);
    var p := ParseOperand(lvl, ts);
    if p.Parsed? { SameMore(lvl, p.v, p.rest); }
  }

  lemma {:induction false} SameOperand(lvl: nat, ts: Tokens)
    requires lvl <= 2
    ensures Tracks(ts, ParseOperand(lvl, ts), ParseOperand(lvl, Before(ts)))
    decreases |ts|, 5 - lvl, 0
  {
    hide Before, Onwards;
    if lvl == 2 { SameUnary(ts); } else { SameLevel(lvl + 1, ts); }
  }

  lemma {:induction false} SameMore(lvl: nat, a: SExpr, ts: Tokens)
    requires lvl <= 2
    ensures Tracks(ts, ParseMore(lvl, a, ts), ParseMore(lvl, a, Before(ts)))
    decreases |ts|, 6
  {
    hide Before, Onwards;
    SameHead(ts);
    if StartsOp(ts, lvl) {
      SameOperand(lvl, Tail(ts));
      var p := ParseOperand(lvl, Tail(ts));
      if p.Parsed? { SameMore(lvl, SBin(Head(ts).op, a, p.v), p.rest); }
    }
  }

  lemma {:induction false} SameUnary(ts: Tokens)
    ensures Tracks(ts, ParseUnary(ts), ParseUnary(Before(ts)))
    decreases |ts|, 2
  {
    hide Before, Onwards;
    SameHead(ts);
    if Head(ts) == Sym(Sub) { SameUnary(Tail(ts)); } else { SamePrimary(ts); }
  }

  lemma {:induction false} SamePrimary(ts: Tokens)
    ensures Tracks(ts, ParsePrimary(ts), ParsePrimary(Before(ts)))
    decreases |ts|, 1
  {
    hide Before, Onwards, Expect;
    SameHead(ts);
    var ts1 := Tail(ts);
    if Head(ts) == LParen {
      SameExprThen(ts1, RParen);
    } else if Head(ts).Ident? {
      SameHead(ts1);
      if Head(ts1) == LParen {
        SameArgs(Tail(ts1));
        var p := ParseArgs(Tail(ts1));
        if p.Parsed? { SameExpect(p.rest, RParen); }
      } else if Head(ts1) == LBracket {
        SameExprThen(Tail(ts1), RBracket);
      }
    }
  }

  /** An expression and a closing token. */
  lemma {:induction false} SameExprThen(ts: Tokens, t: Token)
    requires t != Eof
    ensures Tracks(ts, ParseExpr(ts), ParseExpr(Before(ts)))
    ensures ParseExpr(ts).Parsed? ==>
              Tracks(ParseExpr(ts).rest, Expect(ParseExpr(ts).rest, t), Expect(ParseExpr(Before(ts)).rest, t))
    decreases |ts|, 7
  {
    hide Before, Onwards, Expect;
    SameExpr(ts);
    if ParseExpr(ts).Parsed? { SameExpect(ParseExpr(ts).rest, t); }
  }

  lemma {:induction false} SameArgs(ts: Tokens)
    ensures Tracks(ts, ParseArgs(ts), ParseArgs(Before(ts)))
    decreases |ts|, 7
  {
    hide Before, Onwards;
    SameHead(ts);
    if Head(ts) != RParen && Head(ts) != Eof {
      SameExpr(ts);
      var p := ParseExpr(ts);
      if p.Parsed? {
        SameHead(p.rest);
        if Head(p.rest) == Comma { SameArgs(Tail(p.rest)); }
      }
    }
  }

  // ----- statements -----

  lemma SameCondition(ts: Tokens)
    ensures Tracks(ts, ParseCondition(ts), ParseCondition(Before(ts)))
  {
    hide Before, Onwards, Expect, ParseExpr;
    SameExpect(ts, LParen);
    var p := Expect(ts, LParen);
    if p.Parsed? { SameExprThen(p.rest, RParen); }
  }

  lemma SameDecl(ty: Type, ts: Tokens)
    ensures Tracks(ts, ParseDecl(ty, ts), ParseDecl(ty, Before(ts)))
  {
    hide Before, Onwards, Expect, ParseExpr;
    SameHead(ts);
    if Head(ts).Ident? {
      var ts1 := Tail(ts);
      SameHead(ts1);
      SameExpect(ts1, Semi);
      var ts2 := Tail(ts1);
      if Head(ts1) == LBracket {
        SameExprThen(ts2, RBracket);
        var p := ParseExpr(ts2);
        if p.Parsed? && Expect(p.rest, RBracket).Parsed? { SameExpect(Expect(p.rest, RBracket).rest, Semi); }
      } else if Head(ts1) == Equals {
        SameExprThen(ts2, Semi);
      }
    }
  }

  lemma SameLvalue(x: Name, ts: Tokens)
    requires Head(ts) == Ident(x) && Head(Before(ts)) == Ident(x)
    ensures Tracks(ts, ParseLvalue(x, ts), ParseLvalue(x, Before(ts)))
  {
    hide Before, Onwards, Expect, ParseExpr;
    SameHead(ts);
    var ts1 := Tail(ts);
    SameHead(ts1);
    if Head(ts1) == LParen {
      SameExprThen(ts, Semi);
    } else if Head(ts1) == LBracket {
      SameExprThen(Tail(ts1), RBracket);
      var p := ParseExpr(Tail(ts1));
      if p.Parsed? && Expect(p.rest, RBracket).Parsed? { SameAssigned(Expect(p.rest, RBracket).rest); }
    } else {
      SameAssigned(ts1);
    }
  }

  /** `=`, an expression and `;`. */
  lemma SameAssigned(ts: Tokens)
    ensures Tracks(ts, Expect(ts, Equals), Expect(Before(ts), Equals))
    ensures Expect(ts, Equals).Parsed? ==>
              var ts1, us1 := Expect(ts, Equals).rest, Expect(Before(ts), Equals).rest;
              && Tracks(ts1, ParseExpr(ts1), ParseExpr(us1))
              && (ParseExpr(ts1).Parsed? ==>
                    Tracks(ParseExpr(ts1).rest, Expect(ParseExpr(ts1).rest, Semi), Expect(ParseExpr(us1).rest, Semi)))
  {
    hide Before, Onwards, Expect, ParseExpr;
    SameExpect(ts, Equals);
    var p := Expect(ts, Equals);
    if p.Parsed? { SameExprThen(p.rest, Semi); }
  }

  lemma {:induction false} SameStmt(ts: Tokens)
    ensures Tracks(ts, ParseStmt(ts), ParseStmt(Before(ts)))
    decreases |ts|, 1
  {
    hide Before, Onwards, Expect, ParseExpr, ParseCondition, ParseDecl, ParseLvalue, ParseStmts;
    SameHead(ts);
    var ts1 := Tail(ts);
    match Head(ts)
    case LBrace =>
      SameStmts(ts1);
      var p := ParseStmts(ts1);
      if p.Parsed? { SameExpect(p.rest, RBrace); }
    case KwInt => SameDecl(TInt, ts1);
    case KwDouble => SameDecl(TDouble, ts1);
    case KwIf => SameIf(ts);
    case KwWhile =>
      SameCondition(ts1);
      var p := ParseCondition(ts1);
      if p.Parsed? { SameStmt(p.rest); }
    case KwReturn =>
      SameHead(ts1);
      SameExprThen(ts1, Semi);
    case KwPrint =>
      SameCondition(ts1);
      var p := ParseCondition(ts1);
      if p.Parsed? { SameExpect(p.rest, Semi); }
    case Ident(x) => SameLvalue(x, ts);
    case _ =>
  }

  lemma {:induction false} SameIf(ts: Tokens)
    requires Head(ts) == KwIf
    ensures Tracks(ts, ParseStmt(ts), ParseStmt(Before(ts)))
    decreases |ts|, 0
  {
    hide Before, Onwards, Expect, ParseExpr, ParseCondition, ParseDecl, ParseLvalue, ParseStmts;
    SameHead(ts);
    SameCondition(Tail(ts));
    var p := ParseCondition(Tail(ts));
    if p.Parsed? {
      SameStmt(p.rest);
      var q := ParseStmt(p.rest);
      if q.Parsed? {
        SameHead(q.rest);
        if Head(q.rest) == KwElse { SameStmt(Tail(q.rest)); }
      }
    }
  }

  lemma {:induction false} SameStmts(ts: Tokens)
    ensures Tracks(ts, ParseStmts(ts), ParseStmts(Before(ts)))
    decreases |ts|, 2
  {
    hide Before, Onwards;
    SameHead(ts);
    if Head(ts) != RBrace && Head(ts) != Eof {
      SameStmt(ts);
      var p := ParseStmt(ts);
      if p.Parsed? { SameStmts(p.rest); }
    }
  }

  // ----- functions -----

  lemma SameParam(ts: Tokens)
    ensures Tracks(ts, ParseParam(ts), ParseParam(Before(ts)))
  {
    hide Before, Onwards, Expect;
    SameHead(ts);
    var ts1 := Tail(ts);
    if TypeOfKw(Head(ts)).Some? {
      SameHead(ts1);
      if Head(ts1).Ident? {
        var ts2 := Tail(ts1);
        SameHead(ts2);
        if Head(ts2) == LBracket { SameExpect(Tail(ts2), RBracket); }
      }
    }
  }

  lemma {:induction false} SameParams(ts: Tokens)
    ensures Tracks(ts, ParseParams(ts), ParseParams(Before(ts)))
    decreases |ts|
  {
    hide Before, Onwards, ParseParam;
    SameHead(ts);
    if Head(ts) != RParen && Head(ts) != Eof {
      SameParam(ts);
      var p := ParseParam(ts);
      if p.Parsed? {
        SameHead(p.rest);
        if Head(p.rest) == Comma { SameParams(Tail(p.rest)); }
      }
    }
  }

  /** `{`, statements and `}`. */
  function ParseBody(ts: Tokens): Parse<seq<SStmt>> {
    var (_, ts1) :- Expect(ts, LBrace);
    var (body, ts2) :- ParseStmts(ts1);
    var (_, ts3) :- Expect(ts2, RBrace);
    Parsed(body, ts3)
  }

  lemma SameBody(ts: Tokens)
    ensures Tracks(ts, ParseBody(ts), ParseBody(Before(ts)))
  {
    hide Before, Onwards, Expect, ParseStmts;
    SameExpect(ts, LBrace);
    var p := Expect(ts, LBrace);
    if p.Parsed? {
      SameStmts(p.rest);
      var q := ParseStmts(p.rest);
      if q.Parsed? { SameExpect(q.rest, RBrace); }
    }
  }

  /** `(`, parameters and `)`. */
  function ParseParamList(ts: Tokens): Parse<seq<Param>> {
    var (_, ts1) :- Expect(ts, LParen);
    var (params, ts2) :- ParseParams(ts1);
    var (_, ts3) :- Expect(ts2, RParen);
    Parsed(params, ts3)
  }

  lemma SameParamList(ts: Tokens)
    ensures Tracks(ts, ParseParamList(ts), ParseParamList(Before(ts)))
  {
    hide Before, Onwards, Expect, ParseParams;
    SameExpect(ts, LParen);
    var p := Expect(ts, LParen);
    if p.Parsed? {
      SameParams(p.rest);
      var q := ParseParams(p.rest);
      if q.Parsed? { SameExpect(q.rest, RParen); }
    }
  }

  lemma FuncInParts(ts: Tokens)
    ensures ParseFunc(ts) ==
            var ty := TypeOfKw(Head(ts));
            var ts1 := Tail(ts);
            if ty.None? || !Head(ts1).Ident? then Failed
            else
              var p := ParseParamList(Tail(ts1));
              if p.Failed? then Failed
              else
                var b := ParseBody(p.rest);
                if b.Failed? then Failed else Parsed(SFunc(ty.value, Head(ts1).x, p.v, b.v), b.rest)
  {
    hide ParseParams, ParseStmts, Expect;
  }

  lemma SameFunc(ts: Tokens)
    ensures Tracks(ts, ParseFunc(ts), ParseFunc(Before(ts)))
  {
    hide Before, Onwards, ParseFunc, ParseParamList, ParseBody;
    FuncInParts(ts);
    FuncInParts(Before(ts));
    SameHead(ts);
    var ts1 := Tail(ts);
    if TypeOfKw(Head(ts)).Some? {
      SameHead(ts1);
      if Head(ts1).Ident? {
        SameParamList(Tail(ts1));
        var p := ParseParamList(Tail(ts1));
        if p.Parsed? { SameBody(p.rest); }
      }
    }
  }

  /** A token sequence is accepted exactly when the tokens before its first end of input are, as the same
      program, and all the rest is dropped. */
  lemma {:induction false} StopsAtFirstEof(ts: Tokens)
    ensures ParseProgram(ts) ==
            var p := ParseProgram(Before(ts));
            if p.Failed? then Failed else Parsed(p.v, Onwards(ts))
    decreases |ts|
  {
    hide Before, Onwards, ParseFunc;
    SameHead(ts);
    if Head(ts) == Eof {
      NothingBefore(ts);
    } else {
      SameFunc(ts);
      var p := ParseFunc(ts);
      if p.Parsed? { StopsAtFirstEof(p.rest); }
    }
  }

  lemma NothingBefore(ts: Tokens)
    requires Head(ts) == Eof
    ensures Onwards(ts) == ts
  {
  }

  lemma {:induction false} OnwardsIsEmptyIff(ts: Tokens)
    ensures ts == Before(ts) + Onwards(ts)
    ensures Onwards(ts) == [] <==> Eof !in ts
    ensures Eof !in Before(ts)
  {
    if Head(ts) != Eof { OnwardsIsEmptyIff(ts[1..]); }
  }

  /** Nothing of an accepted token sequence is dropped exactly when it holds no end of input. */
  lemma NothingDroppedIff(ts: Tokens)
    requires ParseProgram(ts).Parsed?
    ensures ParseProgram(ts).rest == [] <==> Eof !in ts
  {
    hide ParseProgram, Before, Onwards;
    StopsAtFirstEof(ts);
    OnwardsIsEmptyIff(ts);
  }
}
