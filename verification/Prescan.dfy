/** The throw-away pass that collects function headers before parsing: for every accepted program it finds
    exactly the functions the grammar finds, in the same order. */
module Prescan {
  import opened Values
  import opened Ast
  import opened Surface
  import opened Syntax

  /** Parameter types recorded from the tokens after `(`, and the tokens from the closing `)` on. */
  datatype Header = Header(tys: seq<Type>, rest: Tokens)

  function ScanParams(ts: Tokens, tys: seq<Type>): (h: Header)
    ensures |h.rest| <= |ts|
    decreases |ts|
  {
    var t := Head(ts);
    if t == RParen || t == Eof then Header(tys, ts)
    else
      var ty := TypeOfKw(t);
      if ty.Some? && |tys| < MAX_SIG_PARAMS then
        var name := Head(Tail(ts));
        if name == LBracket then
          ScanParams(SkipComma(Tail(Tail(Tail(ts)))), tys + [ArrayOf(ty.value)])
        else
          ScanParams(SkipComma(Tail(Tail(ts))), tys + [ty.value])
      else ScanParams(SkipComma(Tail(ts)), tys)
  }

  function SkipComma(ts: Tokens): (r: Tokens)
    ensures |r| <= |ts|
  {
    if Head(ts) == Comma then Tail(ts) else ts
  }

  /** The whole pass, from the tokens that are left. */
  function Scan(ts: Tokens, sigs: seq<Sig>): seq<Sig>
    decreases |ts|
  {
    var t := Head(ts);
    if t == Eof then sigs
    else
      match TypeOfKw(t)
      case None => Scan(Tail(ts), sigs)
      case Some(ret) =>
        var name := Head(Tail(ts));
        var ts3 := Tail(Tail(Tail(ts)));
        if name.Ident? && Head(Tail(Tail(ts))) == LParen then
          var h := ScanParams(ts3, []);
          Scan(Tail(h.rest), sigs + [Sig(name.x, ret, h.tys)])
        else Scan(ts3, sigs)
  }

  /** One round of the pass. */
  lemma ScanUnfold(ts: Tokens, sigs: seq<Sig>)
    ensures Scan(ts, sigs) ==
            if Head(ts) == Eof then sigs
            else if TypeOfKw(Head(ts)).None? then Scan(Tail(ts), sigs)
            else if Head(Tail(ts)).Ident? && Head(Tail(Tail(ts))) == LParen then
              var h := ScanParams(Tail(Tail(Tail(ts))), []);
              Scan(Tail(h.rest), sigs + [Sig(Head(Tail(ts)).x, TypeOfKw(Head(ts)).value, h.tys)])
            else Scan(Tail(Tail(Tail(ts))), sigs)
  {
    hide ScanParams;
  }

  /** One round of its parameter loop. */
  lemma ScanParamsUnfold(ts: Tokens, tys: seq<Type>)
    ensures var t := Head(ts);
            ScanParams(ts, tys) ==
            if t == RParen || t == Eof then Header(tys, ts)
            else if TypeOfKw(t).Some? && |tys| < MAX_SIG_PARAMS then
              if Head(Tail(ts)) == LBracket then
                ScanParams(SkipComma(Tail(Tail(Tail(ts)))), tys + [ArrayOf(TypeOfKw(t).value)])
              else ScanParams(SkipComma(Tail(Tail(ts))), tys + [TypeOfKw(t).value])
            else ScanParams(SkipComma(Tail(ts)), tys)
  {
  }

  /** From `ts` on the pass finds what it finds from `rest` on. */
  ghost predicate Skips(ts: Tokens, rest: Tokens) {
    forall sigs :: Scan(ts, sigs) == Scan(rest, sigs)
  }

  /** A token that starts nothing. */
  lemma SkipOne(ts: Tokens)
    requires TypeOfKw(Head(ts)).None? && Head(ts) != Eof
    ensures Skips(ts, Tail(ts))
  {
  }

  lemma SkipExpect(ts: Tokens, t: Token)
    requires Expect(ts, t).Parsed? && t != Eof && TypeOfKw(t).None?
    ensures Skips(ts, Expect(ts, t).rest)
  {
  }

  // ----- nothing inside an expression looks like a function -----

  lemma {:induction false} SkipExpr(ts: Tokens)
    requires ParseExpr(ts).Parsed?
    ensures Skips(ts, ParseExpr(ts).rest)
    decreases |ts|, 6
  {
    hide Scan;
    SkipLevel(0, ts);
  }

  lemma {:induction false} SkipLevel(lvl: nat, ts: Tokens)
    requires lvl <= 2 && ParseLevel(lvl, ts).Parsed?
    ensures Skips(ts, ParseLevel(lvl, ts).rest)
    decreases |ts|, 5 - lvl
  {
    hide Scan;
    SkipOperand(lvl, ts);
    var p := ParseOperand(lvl, ts);
    SkipMore(lvl, p.v, p.rest);
  }

  lemma {:induction false} SkipOperand(lvl: nat, ts: Tokens)
    requires lvl <= 2 && ParseOperand(lvl, ts).Parsed?
    ensures Skips(ts, ParseOperand(lvl, ts).rest)
    decreases |ts|, 5 - lvl, 0
  {
    hide Scan;
    if lvl == 2 { SkipUnary(ts); } else { SkipLevel(lvl + 1, ts); }
  }

  lemma {:induction false} SkipMore(lvl: nat, a: SExpr, ts: Tokens)
    requires lvl <= 2 && ParseMore(lvl, a, ts).Parsed?
    ensures Skips(ts, ParseMore(lvl, a, ts).rest)
    decreases |ts|, 6
  {
    hide Scan;
    if StartsOp(ts, lvl) {
      SkipOne(ts);
      SkipOperand(lvl, Tail(ts));
      var p := ParseOperand(lvl, Tail(ts));
      SkipMore(lvl, SBin(Head(ts).op, a, p.v), p.rest);
    }
  }

  lemma {:induction false} SkipUnary(ts: Tokens)
    requires ParseUnary(ts).Parsed?
    ensures Skips(ts, ParseUnary(ts).rest)
    decreases |ts|, 2
  {
    hide Scan;
    if Head(ts) == Sym(Sub) {
      SkipOne(ts);
      SkipUnary(Tail(ts));
    } else {
      SkipPrimary(ts);
    }
  }

  lemma {:induction false} SkipPrimary(ts: Tokens)
    requires ParsePrimary(ts).Parsed?
    ensures Skips(ts, ParsePrimary(ts).rest)
    decreases |ts|, 1
  {
    hide Scan;
    var ts1 := Tail(ts);
    SkipOne(ts);
    if Head(ts) == LParen {
      SkipExpr(ts1);
      SkipExpect(ParseExpr(ts1).rest, RParen);
    } else if Head(ts).Ident? && Head(ts1) == LParen {
      SkipOne(ts1);
      SkipArgs(Tail(ts1));
      SkipExpect(ParseArgs(Tail(ts1)).rest, RParen);
    } else if Head(ts).Ident? && Head(ts1) == LBracket {
      SkipOne(ts1);
      SkipExpr(Tail(ts1));
      SkipExpect(ParseExpr(Tail(ts1)).rest, RBracket);
    }
  }

  lemma {:induction false} SkipArgs(ts: Tokens)
    requires ParseArgs(ts).Parsed?
    ensures Skips(ts, ParseArgs(ts).rest)
    decreases |ts|, 7
  {
    hide Scan;
    if Head(ts) != RParen && Head(ts) != Eof {
      SkipExpr(ts);
      var ts1 := ParseExpr(ts).rest;
      if Head(ts1) == Comma {
        SkipOne(ts1);
        SkipArgs(Tail(ts1));
      }
    }
  }

  // ----- nor inside a statement -----

  lemma SkipCondition(ts: Tokens)
    requires ParseCondition(ts).Parsed?
    ensures Skips(ts, ParseCondition(ts).rest)
  {
    hide Scan;
    SkipExpect(ts, LParen);
    var ts1 := Expect(ts, LParen).rest;
    SkipExpr(ts1);
    SkipExpect(ParseExpr(ts1).rest, RParen);
  }

  /** A declaration: type, name and the token after it are taken in one go. */
  lemma SkipDecl(ty: Type, ts: Tokens)
    requires TypeOfKw(Head(ts)) == Some(ty) && ParseDecl(ty, Tail(ts)).Parsed?
    ensures Skips(ts, ParseDecl(ty, Tail(ts)).rest)
  {
    var ts2 := Tail(Tail(ts));
    var ts3 := Tail(ts2);
    assert Skips(ts, ts3);
    SkipInit(ts2);
  }

  lemma SkipInit(ts2: Tokens)
    ensures Head(ts2) == LBracket && ParseExpr(Tail(ts2)).Parsed? ==>
              var ts3 := ParseExpr(Tail(ts2)).rest;
              Expect(ts3, RBracket).Parsed? && Expect(Expect(ts3, RBracket).rest, Semi).Parsed? ==>
                Skips(Tail(ts2), Expect(Expect(ts3, RBracket).rest, Semi).rest)
    ensures Head(ts2) == Equals && ParseExpr(Tail(ts2)).Parsed? && Expect(ParseExpr(Tail(ts2)).rest, Semi).Parsed? ==>
              Skips(Tail(ts2), Expect(ParseExpr(Tail(ts2)).rest, Semi).rest)
  {
    hide Scan;
    var ts3 := Tail(ts2);
    if ParseExpr(ts3).Parsed? {
      SkipExpr(ts3);
      var ts4 := ParseExpr(ts3).rest;
      if Head(ts4) == RBracket {
        SkipOne(ts4);
        if Head(Tail(ts4)) == Semi { SkipOne(Tail(ts4)); }
      } else if Head(ts4) == Semi {
        SkipOne(ts4);
      }
    }
  }

  lemma SkipLvalue(x: Name, ts: Tokens)
    requires Head(ts) == Ident(x) && ParseLvalue(x, ts).Parsed?
    ensures Skips(ts, ParseLvalue(x, ts).rest)
  {
    hide Scan;
    var ts1 := Tail(ts);
    if Head(ts1) == LParen {
      SkipExpr(ts);
      SkipExpect(ParseExpr(ts).rest, Semi);
    } else if Head(ts1) == LBracket {
      SkipOne(ts);
      SkipOne(ts1);
      SkipExpr(Tail(ts1));
      var ts2 := ParseExpr(Tail(ts1)).rest;
      SkipExpect(ts2, RBracket);
      var ts3 := Expect(ts2, RBracket).rest;
      SkipExpect(ts3, Equals);
      SkipExprSemi(Expect(ts3, Equals).rest);
    } else {
      SkipOne(ts);
      SkipExpect(ts1, Equals);
      SkipExprSemi(Tail(ts1));
    }
  }

  lemma SkipExprSemi(ts: Tokens)
    requires ParseExpr(ts).Parsed? && Expect(ParseExpr(ts).rest, Semi).Parsed?
    ensures Skips(ts, Expect(ParseExpr(ts).rest, Semi).rest)
  {
    hide Scan;
    SkipExpr(ts);
    SkipExpect(ParseExpr(ts).rest, Semi);
  }

  lemma {:induction false} SkipStmt(ts: Tokens)
    requires ParseStmt(ts).Parsed?
    ensures Skips(ts, ParseStmt(ts).rest)
    decreases |ts|, 1
  {
    hide Scan;
    match Head(ts)
    case LBrace =>
      SkipOne(ts);
      SkipStmts(Tail(ts));
      SkipExpect(ParseStmts(Tail(ts)).rest, RBrace);
    case KwInt => SkipDecl(TInt, ts);
    case KwDouble => SkipDecl(TDouble, ts);
    case KwIf =>
      SkipOne(ts);
      SkipCondition(Tail(ts));
      var ts1 := ParseCondition(Tail(ts)).rest;
      SkipStmt(ts1);
      var ts2 := ParseStmt(ts1).rest;
      if Head(ts2) == KwElse {
        SkipOne(ts2);
        SkipStmt(Tail(ts2));
      }
    case KwWhile =>
      SkipOne(ts);
      SkipCondition(Tail(ts));
      SkipStmt(ParseCondition(Tail(ts)).rest);
    case KwReturn =>
      SkipOne(ts);
      if Head(Tail(ts)) == Semi { SkipOne(Tail(ts)); } else { SkipExprSemi(Tail(ts)); }
    case KwPrint =>
      SkipOne(ts);
      SkipCondition(Tail(ts));
      SkipExpect(ParseCondition(Tail(ts)).rest, Semi);
    case Ident(x) => SkipLvalue(x, ts);
  }

  lemma {:induction false} SkipStmts(ts: Tokens)
    requires ParseStmts(ts).Parsed?
    ensures Skips(ts, ParseStmts(ts).rest)
    decreases |ts|, 2
  {
    hide Scan;
    if Head(ts) != RBrace && Head(ts) != Eof {
      SkipStmt(ts);
      SkipStmts(ParseStmt(ts).rest);
    }
  }

  // ----- headers -----

  /** What the pass records of a parameter list: element types, the first 32 of them. */
  function Recorded(tys: seq<Type>, params: seq<Param>): seq<Type>
    decreases params
  {
    if params == [] then tys
    else Recorded(if |tys| < MAX_SIG_PARAMS then tys + [Elem(params[0].ty)] else tys, params[1..])
  }

  lemma {:induction false} ScanParam(ts: Tokens, tys: seq<Type>)
    requires ParseParam(ts).Parsed?
    requires var rest := ParseParam(ts).rest; Head(rest) == Comma || Head(rest) == RParen
    ensures var p := ParseParam(ts);
            ScanParams(ts, tys) ==
            ScanParams(SkipComma(p.rest), if |tys| < MAX_SIG_PARAMS then tys + [Elem(p.v.ty)] else tys)
  {
    var ts1 := Tail(ts);
    var ts2 := Tail(ts1);
    var tys1 := if |tys| < MAX_SIG_PARAMS then tys + [TypeOfKw(Head(ts)).value] else tys;
    if |tys| >= MAX_SIG_PARAMS {
      assert ScanParams(ts, tys) == ScanParams(ts1, tys) == ScanParams(SkipComma(ts2), tys);
    }
    assert ScanParams(ts, tys) == ScanParams(SkipComma(ts2), tys1);
    if Head(ts2) == LBracket {
      var ts3 := Tail(ts2);
      assert ScanParams(ts2, tys1) == ScanParams(ts3, tys1);
      assert ScanParams(ts3, tys1) == ScanParams(SkipComma(Tail(ts3)), tys1);
    }
  }

  lemma {:induction false} ScanParamList(ts: Tokens, tys: seq<Type>)
    requires ParseParams(ts).Parsed? && Head(ParseParams(ts).rest) == RParen
    ensures ScanParams(ts, tys) == Header(Recorded(tys, ParseParams(ts).v), ParseParams(ts).rest)
    decreases |ts|
  {
    hide ParseParam;
    if Head(ts) != RParen {
      var p := ParseParam(ts);
      ScanParam(ts, tys);
      var tys1 := if |tys| < MAX_SIG_PARAMS then tys + [Elem(p.v.ty)] else tys;
      var ps := ParseParams(ts).v;
      if Head(p.rest) == Comma {
        ScanParamList(Tail(p.rest), tys1);
        assert ps[1..] == ParseParams(Tail(p.rest)).v;
      } else {
        assert ps[1..] == [];
      }
    }
  }

  lemma {:induction false} RecordedIsPrefix(tys: seq<Type>, params: seq<Param>)
    requires |tys| <= MAX_SIG_PARAMS
    decreases params
    ensures var r := Recorded(tys, params);
            && |r| == (if |tys| + |params| < MAX_SIG_PARAMS then |tys| + |params| else MAX_SIG_PARAMS)
            && forall i :: 0 <= i < |r| ==> r[i] == if i < |tys| then tys[i] else Elem(params[i - |tys|].ty)
  {
    if params != [] {
      RecordedIsPrefix(if |tys| < MAX_SIG_PARAMS then tys + [Elem(params[0].ty)] else tys, params[1..]);
    }
  }

  lemma {:induction false} ScanFunc(ts: Tokens, sigs: seq<Sig>)
    requires ParseFunc(ts).Parsed?
    ensures Scan(ts, sigs) == Scan(ParseFunc(ts).rest, sigs + [SigOf(ParseFunc(ts).v)])
  {
    hide ParseStmts, ParseParams, Scan, ScanParams;
    var f := ParseFunc(ts).v;
    var ts3 := Tail(Tail(Tail(ts)));
    ScanParamList(ts3, []);
    RecordedIsPrefix([], f.params);
    var h := ScanParams(ts3, []);
    assert h.tys == SigOf(f).params;
    ScanHeader(ts, sigs);
    ScanBody(Tail(h.rest));
  }

  lemma ScanHeader(ts: Tokens, sigs: seq<Sig>)
    requires TypeOfKw(Head(ts)).Some? && Head(Tail(ts)).Ident? && Head(Tail(Tail(ts))) == LParen
    ensures var h := ScanParams(Tail(Tail(Tail(ts))), []);
            Scan(ts, sigs) == Scan(Tail(h.rest), sigs + [Sig(Head(Tail(ts)).x, TypeOfKw(Head(ts)).value, h.tys)])
  {
    hide ScanParams;
  }

  lemma ScanBody(ts: Tokens)
    requires Head(ts) == LBrace && ParseStmts(Tail(ts)).Parsed? && Expect(ParseStmts(Tail(ts)).rest, RBrace).Parsed?
    ensures Skips(ts, Expect(ParseStmts(Tail(ts)).rest, RBrace).rest)
  {
    hide Scan;
    SkipOne(ts);
    SkipStmts(Tail(ts));
    SkipExpect(ParseStmts(Tail(ts)).rest, RBrace);
  }

  /** The k-th recorded header is the header of the k-th function, for every token sequence the grammar
      accepts. */
  lemma {:induction false} ScanFindsFunctions(ts: Tokens, sigs: seq<Sig>)
    requires ParseProgram(ts).Parsed?
    ensures Scan(ts, sigs) == sigs + SigsOf(ParseProgram(ts).v)
    decreases |ts|
  {
    hide ParseFunc, SigOf;
    var p := ParseProgram(ts).v;
    if Head(ts) != Eof {
      var f := ParseFunc(ts);
      ScanFunc(ts, sigs);
      ScanFindsFunctions(f.rest, sigs + [SigOf(f.v)]);
      var q := ParseProgram(f.rest).v;
      assert p == [f.v] + q;
      assert SigsOf(p) == [SigOf(f.v)] + SigsOf(q);
      assert (sigs + [SigOf(f.v)]) + SigsOf(q) == sigs + SigsOf(p);
    } else {
      assert sigs + SigsOf(p) == sigs;
    }
  }
}
