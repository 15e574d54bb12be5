/** How elaboration follows the parser's loops: a failing part makes the whole fail, and lists grow at their
    end. */
module ParseFacts {
  import opened Values
  import opened Ast
  import opened Surface
  import opened Elab
  import opened Syntax

  function Prepend<T>(xs: seq<T>, r: Parse<seq<T>>): Parse<seq<T>> {
    if r.Parsed? then Parsed(xs + r.v, r.rest) else Failed
  }

  lemma BinElab(sigs: seq<Sig>, g: Scopes, op: Op, a: SExpr, b: SExpr)
    ensures var x, y := ElabE(sigs, g, a), ElabE(sigs, g, b);
            if x.Done? && y.Done? then ElabE(sigs, g, SBin(op, a, b)) == Done(MakeBinop(op, x.v, y.v))
            else !ElabE(sigs, g, SBin(op, a, b)).Done?
  {
  }

  /** An operand that does not elaborate spoils everything folded onto it. */
  lemma {:induction false} MoreRejects(sigs: seq<Sig>, g: Scopes, lvl: nat, a: SExpr, ts: Tokens)
    requires lvl <= 2
    ensures !ElabE(sigs, g, a).Done? && ParseMore(lvl, a, ts).Parsed? ==> !ElabE(sigs, g, ParseMore(lvl, a, ts).v).Done?
    decreases |ts|
  {
    hide ElabE;
    if StartsOp(ts, lvl) && ParseOperand(lvl, Tail(ts)).Parsed? {
      var p := ParseOperand(lvl, Tail(ts));
      BinElab(sigs, g, Head(ts).op, a, p.v);
      MoreRejects(sigs, g, lvl, SBin(Head(ts).op, a, p.v), p.rest);
    }
  }

  lemma NoArgs(sigs: seq<Sig>, g: Scopes, tys: seq<Type>, r: Parse<seq<SExpr>>)
    ensures ElabArgs(sigs, g, [], tys) == Done([]) && Prepend([], r) == r
  {
    if r.Parsed? { assert [] + r.v == r.v; }
  }

  /** One more argument at the end. */
  lemma {:induction false} ArgsElab(sigs: seq<Sig>, g: Scopes, es: seq<SExpr>, e: SExpr, tys: seq<Type>)
    ensures var rs, r := ElabArgs(sigs, g, es, tys), ElabE(sigs, g, e);
            if rs.Done? && r.Done? then
              ElabArgs(sigs, g, es + [e], tys) == Done(rs.v + [if |es| < |tys| then Coerce(r.v, tys[|es|]) else r.v])
            else !ElabArgs(sigs, g, es + [e], tys).Done?
    decreases |es|
  {
    hide ElabE, Coerce;
    if es == [] {
      var all := es + [e];
      assert all[0] == e && all[1..] == [];
      assert ElabArgs(sigs, g, [], if tys == [] then [] else tys[1..]) == Done([]);
      var r := ElabE(sigs, g, e);
      if r.Done? {
        var last := if tys == [] then r.v else Coerce(r.v, tys[0]);
        assert [last] + [] == [] + [last];
      }
    } else {
      var rest := if tys == [] then [] else tys[1..];
      ArgsElab(sigs, g, es[1..], e, rest);
      assert (es + [e])[1..] == es[1..] + [e];
      assert (es + [e])[0] == es[0];
      var rs, r := ElabArgs(sigs, g, es[1..], rest), ElabE(sigs, g, e);
      if rs.Done? && r.Done? && ElabE(sigs, g, es[0]).Done? {
        var first := ElabE(sigs, g, es[0]).v;
        var x := if tys == [] then first else Coerce(first, tys[0]);
        var last := if |es| < |tys| then Coerce(r.v, tys[|es|]) else r.v;
        assert |es| < |tys| ==> rest[|es| - 1] == tys[|es|];
        assert [x] + (rs.v + [last]) == ([x] + rs.v) + [last];
      }
    }
  }

  lemma {:induction false} ArgsReject(sigs: seq<Sig>, g: Scopes, es: seq<SExpr>, e: SExpr, more: seq<SExpr>,
                                      tys: seq<Type>)
    ensures !ElabE(sigs, g, e).Done? ==> !ElabArgs(sigs, g, es + ([e] + more), tys).Done?
    decreases |es|
  {
    hide ElabE, Coerce;
    var all := es + ([e] + more);
    if es == [] {
      assert all[0] == e;
    } else {
      ArgsReject(sigs, g, es[1..], e, more, if tys == [] then [] else tys[1..]);
      assert all[1..] == es[1..] + ([e] + more);
    }
  }

  /** One round of the argument loop, with `done` already read. */
  lemma ArgsUnfold(ts: Tokens, done: seq<SExpr>)
    ensures Head(ts) == RParen || Head(ts) == Eof ==> Prepend(done, ParseArgs(ts)) == Parsed(done, ts)
    ensures Head(ts) != RParen && Head(ts) != Eof ==>
              Prepend(done, ParseArgs(ts)) ==
              var p := ParseExpr(ts);
              if p.Failed? then Failed
              else if Head(p.rest) == Comma then Prepend(done + [p.v], ParseArgs(Tail(p.rest)))
              else Parsed(done + [p.v], p.rest)
  {
    hide ParseExpr;
    assert done + [] == done;
    var p := ParseExpr(ts);
    if p.Parsed? && Head(p.rest) == Comma && ParseArgs(Tail(p.rest)).Parsed? {
      var more := ParseArgs(Tail(p.rest)).v;
      assert done + ([p.v] + more) == (done + [p.v]) + more;
    }
  }

  /** An argument that does not elaborate spoils the list. */
  lemma ArgsRejectAll(sigs: seq<Sig>, g: Scopes, done: seq<SExpr>, ts: Tokens, tys: seq<Type>)
    requires Head(ts) != RParen && Head(ts) != Eof
    ensures var p, q := ParseExpr(ts), Prepend(done, ParseArgs(ts));
            q.Parsed? ==> p.Parsed? && (!ElabE(sigs, g, p.v).Done? ==> !ElabArgs(sigs, g, q.v, tys).Done?)
  {
    hide ParseExpr, ElabE, ElabArgs;
    var p := ParseExpr(ts);
    if p.Parsed? {
      if Head(p.rest) != Comma {
        ArgsReject(sigs, g, done, p.v, [], tys);
        assert [p.v] + [] == [p.v];
      } else if ParseArgs(Tail(p.rest)).Parsed? {
        ArgsReject(sigs, g, done, p.v, ParseArgs(Tail(p.rest)).v, tys);
      }
    }
  }

  /** An expression and a semicolon. */
  function ExprSemi(ts: Tokens): Parse<SExpr> {
    var (e, ts1) :- ParseExpr(ts);
    var (_, ts2) :- Expect(ts1, Semi);
    Parsed(e, ts2)
  }

  /** An expression and a closing bracket. */
  function ExprBracket(ts: Tokens): Parse<SExpr> {
    var (e, ts1) :- ParseExpr(ts);
    var (_, ts2) :- Expect(ts1, RBracket);
    Parsed(e, ts2)
  }

  /** The grammar of an indexed store, with the index read in one go. */
  lemma IndexedStoreUnfold(x: Name, ts: Tokens)
    requires Head(ts) == Ident(x) && Head(Tail(ts)) == LBracket
    ensures ParseLvalue(x, ts) ==
            var p := ExprBracket(Tail(Tail(ts)));
            if p.Failed? || Head(p.rest) != Equals then Failed
            else
              var q := ExprSemi(Tail(p.rest));
              if q.Failed? then Failed else Parsed(SAssignIndex(x, p.v, q.v), q.rest)
  {
    hide ParseExpr;
  }

  lemma ArrayDeclUnfold(ty: Type, x: Name, ts: Tokens)
    requires Head(ts) == Ident(x) && Head(Tail(ts)) == LBracket
    ensures ParseDecl(ty, ts) ==
            var p := ExprBracket(Tail(Tail(ts)));
            if p.Failed? || Head(p.rest) != Semi then Failed else Parsed(SDeclArray(ty, x, p.v), Tail(p.rest))
  {
    hide ParseExpr;
  }

  lemma InitDeclUnfold(ty: Type, x: Name, ts: Tokens)
    requires Head(ts) == Ident(x) && Head(Tail(ts)) == Equals
    ensures ParseDecl(ty, ts) ==
            var p := ParseExpr(Tail(Tail(ts)));
            if p.Failed? || Head(p.rest) != Semi then Failed else Parsed(SDecl(ty, x, Some(p.v)), Tail(p.rest))
  {
    hide ParseExpr;
  }

  /** A token no statement begins with. */
  lemma NoStmt(ts: Tokens)
    requires var t := Head(ts);
             t != LBrace && t != KwInt && t != KwDouble && t != KwIf && t != KwWhile && t != KwReturn
                 && t != KwPrint && !t.Ident?
    ensures ParseStmt(ts).Failed?
  {
  }

  lemma StmtIsDecl(ty: Type, ts: Tokens)
    requires TypeOfKw(Head(ts)) == Some(ty)
    ensures ParseStmt(ts) == ParseDecl(ty, Tail(ts))
  {
  }

  lemma DeclFails(ty: Type, ts: Tokens)
    requires !Head(ts).Ident?
    ensures ParseDecl(ty, ts).Failed?
  {
  }

  lemma StmtIsLvalue(x: Name, ts: Tokens)
    requires Head(ts) == Ident(x)
    ensures ParseStmt(ts) == ParseLvalue(x, ts)
  {
  }

  // ----- one statement at a time -----

  lemma BlockUnfold(sigs: seq<Sig>, g: Scopes, n: nat, ts: Tokens)
    requires Head(ts) == LBrace && g != []
    ensures ParseStmt(ts) ==
            var p := ParseStmts(Tail(ts));
            if p.Failed? || Head(p.rest) != RBrace then Failed else Parsed(SBlock(p.v), Tail(p.rest))
    ensures forall body ::
              ElabS(sigs, None, g, n, SBlock(body)) ==
              var q := ElabSeq(sigs, None, g + [map[]], n, body);
              if q.Done? then Done(Piece(Block(q.v.st), q.v.g[..|g|], q.v.n)) else q.PropagateFailure()
  {
    hide ParseStmts, ElabSeq;
  }

  lemma IfUnfold(sigs: seq<Sig>, g: Scopes, n: nat, c: SExpr, thn: SStmt, els: Option<SStmt>)
    requires g != []
    ensures var e, t := ElabE(sigs, g, c), ElabS(sigs, None, g, n, thn);
            ElabS(sigs, None, g, n, SIf(c, thn, els)) ==
            if !e.Done? then e.PropagateFailure()
            else if !t.Done? then t.PropagateFailure()
            else if els.None? then Done(Piece(If(Coerce(e.v, TInt), t.v.st, None), t.v.g, t.v.n))
            else
              var f := ElabS(sigs, None, t.v.g, t.v.n, els.value);
              if f.Done? then Done(Piece(If(Coerce(e.v, TInt), t.v.st, Some(f.v.st)), f.v.g, f.v.n))
              else f.PropagateFailure()
  {
    hide ElabE, Coerce;
  }

  lemma ParseIfUnfold(ts: Tokens)
    requires Head(ts) == KwIf
    ensures ParseStmt(ts) ==
            var c := ParseCondition(Tail(ts));
            if c.Failed? then Failed
            else
              var t := ParseStmt(c.rest);
              if t.Failed? then Failed
              else if Head(t.rest) != KwElse then Parsed(SIf(c.v, t.v, None), t.rest)
              else
                var f := ParseStmt(Tail(t.rest));
                if f.Failed? then Failed else Parsed(SIf(c.v, t.v, Some(f.v)), f.rest)
  {
    hide ParseCondition;
  }

  lemma DeclUnfold(sigs: seq<Sig>, g: Scopes, n: nat, ty: Type, x: Name, init: SExpr)
    requires g != []
    ensures var e := ElabE(sigs, g, init);
            ElabS(sigs, None, g, n, SDecl(ty, x, Some(init))) ==
            if e.Done? then ElabDecl(g, n, x, ty, Decl(ty, n, Some(Coerce(e.v, ty)))) else e.PropagateFailure()
  {
    hide ElabE, Coerce, ElabDecl;
  }

  // ----- statement lists -----

  /** One more statement at the end. */
  lemma {:induction false} SeqElab(sigs: seq<Sig>, ret: Option<Type>, g: Scopes, n: nat, ss: seq<SStmt>, st: SStmt)
    requires g != []
    ensures var q := ElabSeq(sigs, ret, g, n, ss);
            ElabSeq(sigs, ret, g, n, ss + [st]) ==
            if !q.Done? then q
            else
              var r := ElabS(sigs, ret, q.v.g, q.v.n, st);
              if r.Done? then Done(Piece(q.v.st + [r.v.st], r.v.g, r.v.n)) else r.PropagateFailure()
    decreases |ss|
  {
    hide ElabS;
    var all := ss + [st];
    if ss == [] {
      assert all[0] == st && all[1..] == [];
      var r := ElabS(sigs, ret, g, n, st);
      if r.Done? {
        assert ElabSeq(sigs, ret, r.v.g, r.v.n, []) == Done(Piece([], r.v.g, r.v.n));
        assert [r.v.st] + [] == [] + [r.v.st];
      }
    } else {
      assert all[0] == ss[0] && all[1..] == ss[1..] + [st];
      var p := ElabS(sigs, ret, g, n, ss[0]);
      if p.Done? {
        SeqElab(sigs, ret, p.v.g, p.v.n, ss[1..], st);
        var q := ElabSeq(sigs, ret, p.v.g, p.v.n, ss[1..]);
        if q.Done? {
          var r := ElabS(sigs, ret, q.v.g, q.v.n, st);
          if r.Done? { assert [p.v.st] + (q.v.st + [r.v.st]) == ([p.v.st] + q.v.st) + [r.v.st]; }
        }
      }
    }
  }

  /** A failure stays, whatever follows. */
  lemma {:induction false} SeqFailureStays(sigs: seq<Sig>, ret: Option<Type>, g: Scopes, n: nat, ss: seq<SStmt>,
                                           more: seq<SStmt>)
    requires g != []
    ensures var q := ElabSeq(sigs, ret, g, n, ss); !q.Done? ==> ElabSeq(sigs, ret, g, n, ss + more) == q
    decreases |ss|
  {
    hide ElabS;
    if ss != [] {
      var all := ss + more;
      assert all[0] == ss[0] && all[1..] == ss[1..] + more;
      var p := ElabS(sigs, ret, g, n, ss[0]);
      if p.Done? { SeqFailureStays(sigs, ret, p.v.g, p.v.n, ss[1..], more); }
    }
  }

  /** One round of the statement loop. */
  lemma StmtsUnfold(ts: Tokens, done: seq<SStmt>)
    ensures Head(ts) == RBrace || Head(ts) == Eof ==> Prepend(done, ParseStmts(ts)) == Parsed(done, ts)
    ensures Head(ts) != RBrace && Head(ts) != Eof ==>
              Prepend(done, ParseStmts(ts)) ==
              var p := ParseStmt(ts); if p.Failed? then Failed else Prepend(done + [p.v], ParseStmts(p.rest))
  {
    hide ParseStmt;
    assert done + [] == done;
    var p := ParseStmt(ts);
    if p.Parsed? && ParseStmts(p.rest).Parsed? {
      var more := ParseStmts(p.rest).v;
      assert done + ([p.v] + more) == (done + [p.v]) + more;
    }
  }

  // ----- parameters -----

  /** Only the first `n` parameters matter. */
  lemma {:induction false} ParamsPrefix(ps: seq<Param>, more: seq<Param>, n: nat)
    requires n <= |ps|
    ensures ElabParams(ps + more, n) == ElabParams(ps, n)
  {
    if n > 0 {
      ParamsPrefix(ps, more, n - 1);
      assert (ps + more)[n - 1] == ps[n - 1];
    }
  }

  /** One round of the parameter loop. */
  lemma ParamsUnfold(ts: Tokens, done: seq<Param>)
    ensures Head(ts) == RParen || Head(ts) == Eof ==> Prepend(done, ParseParams(ts)) == Parsed(done, ts)
    ensures Head(ts) != RParen && Head(ts) != Eof ==>
              Prepend(done, ParseParams(ts)) ==
              var p := ParseParam(ts);
              if p.Failed? then Failed
              else if Head(p.rest) == Comma then Prepend(done + [p.v], ParseParams(Tail(p.rest)))
              else Parsed(done + [p.v], p.rest)
  {
    hide ParseParam;
    assert done + [] == done;
    var p := ParseParam(ts);
    if p.Parsed? && Head(p.rest) == Comma && ParseParams(Tail(p.rest)).Parsed? {
      var more := ParseParams(Tail(p.rest)).v;
      assert done + ([p.v] + more) == (done + [p.v]) + more;
    }
  }

  /** What the grammar makes of a function from its opening brace on. */
  function BodyOf(ret: Type, name: Name, params: seq<Param>, ts: Tokens): Parse<SFunc> {
    var (_, ts1) :- Expect(ts, LBrace);
    var (body, ts2) :- ParseStmts(ts1);
    var (_, ts3) :- Expect(ts2, RBrace);
    Parsed(SFunc(ret, name, params, body), ts3)
  }

  /** What it makes of one from its parameters on. */
  function FromParams(ret: Type, name: Name, ts: Tokens): Parse<SFunc> {
    var ps := ParseParams(ts);
    if ps.Failed? || Head(ps.rest) != RParen then Failed else BodyOf(ret, name, ps.v, Tail(ps.rest))
  }

  lemma NoBody(ret: Type, name: Name, params: seq<Param>, ts: Tokens)
    requires Head(ts) != LBrace
    ensures BodyOf(ret, name, params, ts).Failed?
  {
  }

  /** A function is its type, its name, and what follows the parenthesis. */
  lemma FuncUnfold(ts: Tokens)
    ensures var ret, ts1 := TypeOfKw(Head(ts)), Tail(ts);
            ParseFunc(ts) ==
            if ret.None? || !Head(ts1).Ident? || Head(Tail(ts1)) != LParen then Failed
            else FromParams(ret.value, Head(ts1).x, Tail(Tail(ts1)))
  {
    hide ParseParams, ParseStmts;
  }

  lemma BodyIsBlock(ret: Type, name: Name, params: seq<Param>, ts: Tokens)
    requires Head(ts) == LBrace
    ensures BodyOf(ret, name, params, ts) ==
            var p := ParseStmt(ts);
            if p.Parsed? && p.v.SBlock? then Parsed(SFunc(ret, name, params, p.v.body), p.rest) else Failed
    ensures ParseStmt(ts).Parsed? ==> ParseStmt(ts).v.SBlock?
  {
    hide ParseStmts;
  }

  // ----- functions of a program -----

  /** One round of the function loop. */
  lemma FuncsUnfold(ts: Tokens, done: SProgram, sigs: seq<Sig>)
    ensures Head(ts) == Eof ==> Prepend(done, ParseProgram(ts)) == Parsed(done, ts)
    ensures Head(ts) != Eof ==>
              Prepend(done, ParseProgram(ts)) ==
              var p := ParseFunc(ts); if p.Failed? then Failed else Prepend(done + [p.v], ParseProgram(p.rest))
    ensures Prepend([], ParseProgram(ts)) == ParseProgram(ts) && ElabFuncs(sigs, []) == Done([])
  {
    hide ParseFunc, ElabFunc;
    assert done + [] == done;
    if ParseProgram(ts).Parsed? { assert [] + ParseProgram(ts).v == ParseProgram(ts).v; }
    var p := ParseFunc(ts);
    if Head(ts) != Eof && p.Parsed? && ParseProgram(p.rest).Parsed? {
      var more := ParseProgram(p.rest).v;
      assert done + ([p.v] + more) == (done + [p.v]) + more;
    }
  }

  lemma {:induction false} FuncsElab(sigs: seq<Sig>, fs: SProgram, f: SFunc)
    ensures var q := ElabFuncs(sigs, fs);
            ElabFuncs(sigs, fs + [f]) ==
            if !q.Done? then q
            else
              var r := ElabFunc(sigs, f);
              if r.Done? then Done(q.v + [r.v]) else r.PropagateFailure()
    decreases |fs|
  {
    hide ElabFunc;
    var all := fs + [f];
    if fs == [] {
      assert all[0] == f && all[1..] == [];
      assert ElabFuncs(sigs, []) == Done([]);
      var r := ElabFunc(sigs, f);
      if r.Done? { assert [r.v] + [] == [] + [r.v]; }
    } else {
      assert all[0] == fs[0] && all[1..] == fs[1..] + [f];
      FuncsElab(sigs, fs[1..], f);
      var p, q, r := ElabFunc(sigs, fs[0]), ElabFuncs(sigs, fs[1..]), ElabFunc(sigs, f);
      if p.Done? && q.Done? && r.Done? { assert [p.v] + (q.v + [r.v]) == ([p.v] + q.v) + [r.v]; }
    }
  }

  lemma {:induction false} FuncsFailureStays(sigs: seq<Sig>, fs: SProgram, more: SProgram)
    ensures var q := ElabFuncs(sigs, fs); !q.Done? ==> ElabFuncs(sigs, fs + more) == q
    decreases |fs|
  {
    hide ElabFunc;
    if fs != [] {
      var all := fs + more;
      assert all[0] == fs[0] && all[1..] == fs[1..] + more;
      FuncsFailureStays(sigs, fs[1..], more);
    }
  }

  // ----- returned values -----

  /** `coerce_returns`: converts every returned value once the body has been parsed. */
  function CoerceReturns(st: Stmt, ret: Type): Stmt
    decreases st, 1
  {
    match st
    case Block(body) => Block(CoerceReturnsSeq(body, ret))
    case If(c, thn, els) =>
      If(c, CoerceReturns(thn, ret),
         match els case None => None case Some(st2) => Some(CoerceReturns(st2, ret)))
    case While(c, body) => While(c, CoerceReturns(body, ret))
    case Return(Some(e)) => Return(Some(Coerce(e, ret)))
    case _ => st
  }

  function CoerceReturnsSeq(ss: seq<Stmt>, ret: Type): seq<Stmt>
    decreases ss, 0
  {
    if ss == [] then [] else [CoerceReturns(ss[0], ret)] + CoerceReturnsSeq(ss[1..], ret)
  }

  /** Converting afterwards is converting on the way. */
  lemma {:induction false} ReturnsCoercedAfterwards(sigs: seq<Sig>, ret: Type, g: Scopes, n: nat, st: SStmt)
    requires g != []
    ensures var q := ElabS(sigs, None, g, n, st);
            ElabS(sigs, Some(ret), g, n, st) == if q.Done? then Done(q.v.(st := CoerceReturns(q.v.st, ret))) else q
    decreases st, 1
  {
    hide ElabE, Coerce;
    match st
    case SBlock(body) => ReturnsCoercedSeq(sigs, ret, g + [map[]], n, body);
    case SIf(c, thn, els) =>
      ReturnsCoercedAfterwards(sigs, ret, g, n, thn);
      if els.Some? {
        var t := ElabS(sigs, None, g, n, thn);
        if t.Done? { ReturnsCoercedAfterwards(sigs, ret, t.v.g, t.v.n, els.value); }
      }
    case SWhile(c, body) => ReturnsCoercedAfterwards(sigs, ret, g, n, body);
    case _ =>
  }

  lemma {:induction false} ReturnsCoercedSeq(sigs: seq<Sig>, ret: Type, g: Scopes, n: nat, ss: seq<SStmt>)
    requires g != []
    ensures var q := ElabSeq(sigs, None, g, n, ss);
            ElabSeq(sigs, Some(ret), g, n, ss) == if q.Done? then Done(q.v.(st := CoerceReturnsSeq(q.v.st, ret))) else q
    decreases ss, 0
  {
    hide ElabS, CoerceReturns;
    if ss != [] {
      ReturnsCoercedAfterwards(sigs, ret, g, n, ss[0]);
      var p := ElabS(sigs, None, g, n, ss[0]);
      if p.Done? { ReturnsCoercedSeq(sigs, ret, p.v.g, p.v.n, ss[1..]); }
    }
  }
}
