/** The parser after a diagnostic: it reports, remembers that there was an error, and goes on.  Only the cursor,
    the names in scope and the error flag matter here.  A missing name of a declaration or parameter is reported
    and then entered in the symbol table all the same; hashing it reads through a null pointer, and there is no
    verdict.  Every other walk comes to the same verdict as rejecting at once. */
module Recovery {
  import opened Values
  import opened Ast
  import opened Surface
  import opened Syntax
  import opened Elab
  import opened Prescan
  import opened EndOfInput
  import opened Declared

  /** Where the parser is, the names of its open scopes, whether it has reported anything, the tokens it has read
      as names of declarations and parameters, and whether it has entered one that is no name. */
  datatype At = At(ts: Tokens, open: Open, err: bool, names: seq<Token>, crashed: bool)

  function Begin(ts: Tokens): At { At(ts, [], false, [], false) }

  function Step(a: At): At { a.(ts := Tail(a.ts)) }

  function Report(a: At): At { a.(err := true) }

  /** `expect`. */
  function Want(a: At, t: Token): At { if Head(a.ts) == t then Step(a) else Report(a) }

  /** A name is looked up; an undeclared one is reported and stands for slot 0. */
  function CheckVar(a: At, x: Name): At { if InScope(a.open, x) then a else Report(a) }

  function CheckFunction(sigs: seq<Sig>, a: At, f: Name): At { if FindSig(sigs, f) < |sigs| then a else Report(a) }

  /** The name of a declaration or parameter: a missing one is reported. */
  function ReadName(a: At): At {
    var b := a.(names := a.names + [Head(a.ts)]);
    if Head(a.ts).Ident? then b else Report(b)
  }

  /** `symtab_insert`.  Only identifiers carry a text; any other token hands over a null pointer. */
  function Insert(a: At, t: Token): At {
    if t.Ident? then a.(open := WithName(a.open, t.x)) else a.(crashed := true)
  }

  /** Nothing is unread, an error is never forgotten, and a crash comes after a report. */
  predicate After(a: At, r: At) { |r.ts| <= |a.ts| && (a.err ==> r.err) && (r.crashed ==> a.crashed || r.err) }

  /** Nothing is declared. */
  predicate Quiet(a: At, r: At) { r.open == a.open && r.names == a.names && r.crashed == a.crashed }

  /** And without an error something was read. */
  predicate Past(a: At, r: At) { After(a, r) && (!r.err ==> |r.ts| < |a.ts|) }

  // ----- expressions -----

  function RExpr(sigs: seq<Sig>, a: At): (r: At)
    ensures Past(a, r) && Quiet(a, r)
    decreases |a.ts|, 6
  {
    RLevel(sigs, 0, a)
  }

  function RLevel(sigs: seq<Sig>, lvl: nat, a: At): (r: At)
    requires lvl <= 2
    ensures Past(a, r) && Quiet(a, r)
    decreases |a.ts|, 5 - lvl
  {
    RMore(sigs, lvl, ROperand(sigs, lvl, a))
  }

  function ROperand(sigs: seq<Sig>, lvl: nat, a: At): (r: At)
    requires lvl <= 2
    ensures Past(a, r) && Quiet(a, r)
    decreases |a.ts|, 5 - lvl, 0
  {
    if lvl == 2 then RUnary(sigs, a) else RLevel(sigs, lvl + 1, a)
  }

  function RMore(sigs: seq<Sig>, lvl: nat, a: At): (r: At)
    requires lvl <= 2
    ensures After(a, r) && Quiet(a, r)
    decreases |a.ts|, 4 - lvl
  {
    if StartsOp(a.ts, lvl) then RMore(sigs, lvl, ROperand(sigs, lvl, Step(a))) else a
  }

  function RUnary(sigs: seq<Sig>, a: At): (r: At)
    ensures Past(a, r) && Quiet(a, r)
    decreases |a.ts|, 2
  {
    if Head(a.ts) == Sym(Sub) then RUnary(sigs, Step(a)) else RPrimary(sigs, a)
  }

  /** Anything that begins no expression is reported and stepped over, even the end of the input. */
  function RPrimary(sigs: seq<Sig>, a: At): (r: At)
    ensures Past(a, r) && Quiet(a, r)
    decreases |a.ts|, 1
  {
    match Head(a.ts)
    case IntTok(_) => Step(a)
    case DblTok(_) => Step(a)
    case LParen => Want(RExpr(sigs, Step(a)), RParen)
    case Ident(_) => RNamed(sigs, a)
    case _ => Step(Report(a))
  }

  /** A call, an array element or a variable. */
  function RNamed(sigs: seq<Sig>, a: At): (r: At)
    requires Head(a.ts).Ident?
    ensures Past(a, r) && Quiet(a, r)
    decreases |a.ts|, 0
  {
    var x, b := Head(a.ts).x, Step(a);
    if Head(b.ts) == LParen then CheckFunction(sigs, Want(RArgs(sigs, Step(b)), RParen), x)
    else
      var c := CheckVar(b, x);
      if Head(b.ts) == LBracket then Want(RExpr(sigs, Step(c)), RBracket) else c
  }

  function RArgs(sigs: seq<Sig>, a: At): (r: At)
    ensures After(a, r) && Quiet(a, r)
    decreases |a.ts|, 7
  {
    if Head(a.ts) == RParen || Head(a.ts) == Eof then a
    else
      var b := RExpr(sigs, a);
      if Head(b.ts) == Comma then RArgs(sigs, Step(b)) else b
  }

  // ----- statements -----

  function RStmt(sigs: seq<Sig>, a: At): (r: At)
    ensures Past(a, r)
    decreases |a.ts|, 2
  {
    match Head(a.ts)
    case LBrace => RBlock(sigs, a)
    case KwInt => RDecl(sigs, Step(a))
    case KwDouble => RDecl(sigs, Step(a))
    case KwIf => RIf(sigs, a)
    case KwWhile => RStmt(sigs, RCondition(sigs, Step(a)))
    case KwReturn => RReturn(sigs, Step(a))
    case KwPrint => Want(RCondition(sigs, Step(a)), Semi)
    case Ident(_) => RLvalue(sigs, a)
    case _ => Step(Report(a))
  }

  /** After `return`. */
  function RReturn(sigs: seq<Sig>, a: At): (r: At)
    ensures Past(a, r) && Quiet(a, r)
  {
    Want(if Head(a.ts) == Semi then a else RExpr(sigs, a), Semi)
  }

  function RIf(sigs: seq<Sig>, a: At): (r: At)
    requires Head(a.ts) == KwIf
    ensures Past(a, r)
    decreases |a.ts|, 1
  {
    var b := RStmt(sigs, RCondition(sigs, Step(a)));
    if Head(b.ts) == KwElse && !b.crashed then RStmt(sigs, Step(b)) else b
  }

  function RCondition(sigs: seq<Sig>, a: At): (r: At)
    ensures Past(a, r) && Quiet(a, r)
  {
    Want(RExpr(sigs, Want(a, LParen)), RParen)
  }

  /** The token in the place of the name is stepped over.  It is entered once what follows it has been read. */
  function RDecl(sigs: seq<Sig>, a: At): (r: At)
    ensures Past(a, r)
  {
    var b := Step(ReadName(a));
    var c :=
      if Head(b.ts) == LBracket then Want(RExpr(sigs, Step(b)), RBracket)
      else if Head(b.ts) == Equals then RExpr(sigs, Step(b))
      else b;
    var d := Insert(c, Head(a.ts));
    if d.crashed then d else Want(d, Semi)
  }

  function RLvalue(sigs: seq<Sig>, a: At): (r: At)
    requires Head(a.ts).Ident?
    ensures Past(a, r) && Quiet(a, r)
  {
    var b := Step(a);
    if Head(b.ts) == LParen then Want(RExpr(sigs, a), Semi)
    else
      var c := CheckVar(b, Head(a.ts).x);
      RAssigned(sigs, if Head(c.ts) == LBracket then Want(RExpr(sigs, Step(c)), RBracket) else c)
  }

  /** `=`, an expression and `;`. */
  function RAssigned(sigs: seq<Sig>, a: At): (r: At)
    ensures Past(a, r) && Quiet(a, r)
  {
    Want(RExpr(sigs, Want(a, Equals)), Semi)
  }

  /** `{`, statements in a scope of their own, and `}`. */
  function RBlock(sigs: seq<Sig>, a: At): (r: At)
    ensures Past(a, r)
    decreases |a.ts|, 1
  {
    var b := Want(a, LBrace);
    var c := RStmts(sigs, b.(open := Pushed(b.open)));
    if c.crashed then c else Want(c.(open := Popped(c.open)), RBrace)
  }

  /** The loop of a block stops at the first error. */
  function RStmts(sigs: seq<Sig>, a: At): (r: At)
    ensures After(a, r)
    decreases |a.ts|, if a.err then 0 else 3
  {
    if Head(a.ts) == RBrace || Head(a.ts) == Eof || a.err then a
    else
      var b := RStmt(sigs, a);
      if b.err then b else RStmts(sigs, b)
  }

  // ----- functions -----

  function RType(a: At): At { if TypeOfKw(Head(a.ts)).Some? then Step(a) else Report(a) }

  function RParam(a: At): (r: At)
    ensures After(a, r)
  {
    var b := RType(a);
    var c := ReadName(b);
    var d := if Head(b.ts).Ident? then Step(c) else c;
    Insert(if Head(d.ts) == LBracket then Want(Step(d), RBracket) else d, Head(b.ts))
  }

  function RParams(a: At): (r: At)
    ensures After(a, r)
    decreases |a.ts|
  {
    if Head(a.ts) == RParen || Head(a.ts) == Eof then a
    else
      var b := RParam(a);
      if Head(b.ts) == Comma && !b.crashed then RParams(Step(b)) else b
  }

  /** `(`, parameters and `)`, in a table of their own. */
  function RHeader(a: At): (r: At)
    ensures After(a, r)
  {
    var b := Want(a, LParen);
    var c := RParams(b.(open := [{}]));
    if c.crashed then c else Want(c, RParen)
  }

  /** A function without a name is given up; anything else is carried through. */
  function RFunc(sigs: seq<Sig>, a: At): (r: At)
    ensures Past(a, r)
  {
    var b := RType(a);
    if !Head(b.ts).Ident? then Report(b)
    else
      var c := RHeader(Step(b));
      if c.crashed then c else RBlock(sigs, c)
  }

  /** The loop over functions stops at the first error. */
  function RProgram(sigs: seq<Sig>, a: At): (r: At)
    ensures After(a, r)
    decreases |a.ts|
  {
    if Head(a.ts) == Eof || a.err then a
    else
      var b := RFunc(sigs, a);
      if b.err then b else RProgram(sigs, b)
  }

  // ----- the same verdict -----

  /** The walk of an expression: an error exactly if there was one, or the grammar rejects, or a name is undeclared;
      and what the grammar accepts is read to the same place, error or not. */
  ghost predicate Same<T(!new)>(a: At, r: At, p: Parse<T>, passes: bool) {
    && (!r.err <==> !a.err && p.Parsed? && passes)
    && (p.Parsed? ==> r.ts == p.rest)
  }

  ghost predicate SameE(sigs: seq<Sig>, a: At, r: At, p: Parse<SExpr>) {
    Same(a, r, p, p.Parsed? && UsesDeclared(sigs, a.open, p.v))
  }

  lemma {:induction false} SameExpr(sigs: seq<Sig>, a: At)
    ensures SameE(sigs, a, RExpr(sigs, a), ParseExpr(a.ts))
    decreases |a.ts|, 6
  {
    hide UsesDeclared;
    SameLevel(sigs, 0, a);
  }

  lemma {:induction false} SameLevel(sigs: seq<Sig>, lvl: nat, a: At)
    requires lvl <= 2
    ensures SameE(sigs, a, RLevel(sigs, lvl, a), ParseLevel(lvl, a.ts))
    decreases |a.ts|, 5 - lvl
  {
    hide ParseOperand, ROperand, ParseMore, RMore, UsesDeclared;
    SameOperand(sigs, lvl, a);
    var p := ParseOperand(lvl, a.ts);
    if p.Parsed? { SameMore(sigs, lvl, p.v, ROperand(sigs, lvl, a)); }
  }

  lemma {:induction false} SameOperand(sigs: seq<Sig>, lvl: nat, a: At)
    requires lvl <= 2
    ensures SameE(sigs, a, ROperand(sigs, lvl, a), ParseOperand(lvl, a.ts))
    decreases |a.ts|, 5 - lvl, 0
  {
    hide ParseUnary, RUnary, ParseLevel, RLevel, UsesDeclared;
    if lvl == 2 { SameUnary(sigs, a); } else { SameLevel(sigs, lvl + 1, a); }
  }

  /** The operands folded in are declared exactly when the tree so far is and nothing is reported on the way. */
  lemma {:induction false} SameMore(sigs: seq<Sig>, lvl: nat, e: SExpr, a: At)
    requires lvl <= 2
    ensures var r, p := RMore(sigs, lvl, a), ParseMore(lvl, e, a.ts);
            && (p.Parsed? ==> r.ts == p.rest)
            && (!a.err && UsesDeclared(sigs, a.open, e) ==>
                  (!r.err <==> p.Parsed? && UsesDeclared(sigs, a.open, p.v)))
            && (!UsesDeclared(sigs, a.open, e) && p.Parsed? ==> !UsesDeclared(sigs, a.open, p.v))
            && (!r.err ==> p.Parsed?)
    decreases |a.ts|, 6
  {
    hide ParseOperand, ROperand;
    if StartsOp(a.ts, lvl) {
      SameOperand(sigs, lvl, Step(a));
      var p := ParseOperand(lvl, Tail(a.ts));
      if p.Parsed? { SameMore(sigs, lvl, SBin(Head(a.ts).op, e, p.v), ROperand(sigs, lvl, Step(a))); }
    }
  }

  lemma {:induction false} SameUnary(sigs: seq<Sig>, a: At)
    ensures SameE(sigs, a, RUnary(sigs, a), ParseUnary(a.ts))
    decreases |a.ts|, 2
  {
    hide ParsePrimary, RPrimary;
    if Head(a.ts) == Sym(Sub) { SameUnary(sigs, Step(a)); } else { SamePrimary(sigs, a); }
  }

  lemma {:induction false} SamePrimary(sigs: seq<Sig>, a: At)
    ensures SameE(sigs, a, RPrimary(sigs, a), ParsePrimary(a.ts))
    decreases |a.ts|, 1
  {
    hide ParseExpr, RExpr, RNamed, ParseArgs, InScope, FindSig;
    match Head(a.ts)
    case LParen => SameExpr(sigs, Step(a));
    case Ident(_) => SameName(sigs, a);
    case _ =>
  }

  lemma {:induction false} SameName(sigs: seq<Sig>, a: At)
    requires Head(a.ts).Ident?
    ensures SameE(sigs, a, RNamed(sigs, a), ParsePrimary(a.ts))
    decreases |a.ts|, 0, 1
  {
    hide ParseExpr, RExpr, ParseArgs, RArgs, InScope, FindSig;
    var b := Step(a);
    if Head(b.ts) == LParen {
      SameCall(sigs, a);
    } else if Head(b.ts) == LBracket {
      SameExpr(sigs, Step(CheckVar(b, Head(a.ts).x)));
    }
  }

  lemma {:induction false} SameCall(sigs: seq<Sig>, a: At)
    requires Head(a.ts).Ident? && Head(Tail(a.ts)) == LParen
    ensures SameE(sigs, a, RNamed(sigs, a), ParsePrimary(a.ts))
    decreases |a.ts|, 0, 0
  {
    hide ParseExpr, RExpr, ParseArgs, RArgs, InScope, FindSig;
    SameArgs(sigs, Step(Step(a)));
  }

  lemma {:induction false} SameArgs(sigs: seq<Sig>, a: At)
    ensures var p := ParseArgs(a.ts); Same(a, RArgs(sigs, a), p, p.Parsed? && AllUseDeclared(sigs, a.open, p.v))
    decreases |a.ts|, 7
  {
    hide ParseExpr, RExpr, UsesDeclared;
    if Head(a.ts) != RParen && Head(a.ts) != Eof {
      SameExpr(sigs, a);
      var p := ParseExpr(a.ts);
      if p.Parsed? && Head(p.rest) == Comma {
        SameArgs(sigs, Step(RExpr(sigs, a)));
        var q := ParseArgs(Tail(p.rest));
        if q.Parsed? { DeclaredFromFirst(sigs, a.open, p.v, q.v); }
      } else if p.Parsed? {
        DeclaredFromFirst(sigs, a.open, p.v, []);
        assert [p.v] + [] == [p.v];
      }
    }
  }

  lemma DeclaredFromFirst(sigs: seq<Sig>, open: Open, e: SExpr, es: seq<SExpr>)
    ensures AllUseDeclared(sigs, open, [e] + es) <==> UsesDeclared(sigs, open, e) && AllUseDeclared(sigs, open, es)
  {
    hide UsesDeclared;
    assert ([e] + es)[0] == e && ([e] + es)[1..] == es;
    assert forall i :: 0 <= i < |es| ==> ([e] + es)[i + 1] == es[i];
  }

  lemma SameCondition(sigs: seq<Sig>, a: At)
    ensures SameE(sigs, a, RCondition(sigs, a), ParseCondition(a.ts))
  {
    hide ParseExpr, RExpr, UsesDeclared;
    SameExpr(sigs, Want(a, LParen));
  }

  /** The walk of a statement.  What the grammar accepts is read to the same place, or the walk has stopped inside a
      block because of an error, at the beginning of some statement; and there has been no crash. */
  ghost predicate Follows<T(!new)>(a: At, r: At, p: Parse<T>, open: Option<Open>) {
    && (!r.err <==> !a.err && p.Parsed? && open.Some?)
    && (!r.err ==> r.ts == p.rest && r.open == open.value)
    && (p.Parsed? ==> !r.crashed && (r.ts == p.rest || (r.err && Head(r.ts) != RBrace && Head(r.ts) != KwElse)))
  }

  ghost predicate SameS(sigs: seq<Sig>, a: At, r: At, p: Parse<SStmt>) {
    Follows(a, r, p, if p.Parsed? then Scoped(sigs, a.open, p.v) else None)
  }

  lemma SameDecl(sigs: seq<Sig>, ty: Type, a: At)
    requires !a.crashed
    ensures SameS(sigs, a, RDecl(sigs, a), ParseDecl(ty, a.ts))
  {
    hide ParseExpr, RExpr, UsesDeclared, WithName;
    if Head(a.ts).Ident? && Head(Tail(a.ts)) == LBracket {
      SameArrayDecl(sigs, ty, a);
    } else {
      SameExpr(sigs, Step(Step(ReadName(a))));
    }
  }

  lemma SameArrayDecl(sigs: seq<Sig>, ty: Type, a: At)
    requires !a.crashed && Head(a.ts).Ident? && Head(Tail(a.ts)) == LBracket
    ensures SameS(sigs, a, RDecl(sigs, a), ParseDecl(ty, a.ts))
  {
    hide ParseExpr, RExpr, UsesDeclared, WithName;
    SameExpr(sigs, Step(Step(ReadName(a))));
  }

  /** What follows the left-hand side of an assignment. */
  function ParseAssigned(ts: Tokens): Parse<SExpr> {
    var (_, ts1) :- Expect(ts, Equals);
    var (e, ts2) :- ParseExpr(ts1);
    var (_, ts3) :- Expect(ts2, Semi);
    Parsed(e, ts3)
  }

  lemma SameAssigned(sigs: seq<Sig>, a: At)
    ensures SameE(sigs, a, RAssigned(sigs, a), ParseAssigned(a.ts))
  {
    hide ParseExpr, RExpr, UsesDeclared;
    SameExpr(sigs, Want(a, Equals));
  }

  lemma LvalueInParts(x: Name, ts: Tokens)
    requires Head(ts) == Ident(x) && Head(Tail(ts)) == LBracket
    ensures ParseLvalue(x, ts) ==
            var p := ParseExpr(Tail(Tail(ts)));
            if p.Failed? || Head(p.rest) != RBracket then Failed
            else
              var q := ParseAssigned(Tail(p.rest));
              if q.Failed? then Failed else Parsed(SAssignIndex(x, p.v, q.v), q.rest)
  {
    hide ParseExpr;
  }

  lemma SameLvalue(sigs: seq<Sig>, x: Name, a: At)
    requires !a.crashed && Head(a.ts) == Ident(x)
    ensures SameS(sigs, a, RLvalue(sigs, a), ParseLvalue(x, a.ts))
  {
    hide ParseExpr, RExpr, UsesDeclared, InScope, RAssigned;
    var b := Step(a);
    if Head(b.ts) == LParen {
      SameExpr(sigs, a);
    } else if Head(b.ts) == LBracket {
      SameIndexed(sigs, x, a);
    } else {
      SameAssigned(sigs, CheckVar(b, x));
    }
  }

  lemma SameIndexed(sigs: seq<Sig>, x: Name, a: At)
    requires !a.crashed && Head(a.ts) == Ident(x) && Head(Tail(a.ts)) == LBracket
    ensures SameS(sigs, a, RLvalue(sigs, a), ParseLvalue(x, a.ts))
  {
    hide ParseExpr, RExpr, UsesDeclared, InScope, RAssigned, ParseAssigned, ParseLvalue;
    LvalueInParts(x, a.ts);
    var b := Step(CheckVar(Step(a), x));
    SameExpr(sigs, b);
    SameAssigned(sigs, Want(RExpr(sigs, b), RBracket));
  }

  lemma {:induction false} SameStmt(sigs: seq<Sig>, a: At)
    requires !a.crashed
    ensures SameS(sigs, a, RStmt(sigs, a), ParseStmt(a.ts))
    decreases |a.ts|, 1, 0
  {
    hide ParseExpr, ParseCondition, RCondition, ParseStmts, RBlock, ParseDecl, RDecl, ParseLvalue, RLvalue, RReturn,
         RIf, UsesDeclared;
    match Head(a.ts)
    case LBrace => SameBlock(sigs, a);
    case KwInt => SameDecl(sigs, TInt, Step(a));
    case KwDouble => SameDecl(sigs, TDouble, Step(a));
    case KwIf => SameIf(sigs, a);
    case KwWhile => SameWhile(sigs, a);
    case KwReturn => SameReturn(sigs, a);
    case KwPrint => SamePrint(sigs, a);
    case Ident(x) => SameLvalue(sigs, x, a);
    case _ =>
  }

  lemma SameReturn(sigs: seq<Sig>, a: At)
    requires !a.crashed && Head(a.ts) == KwReturn
    ensures SameS(sigs, a, RReturn(sigs, Step(a)), ParseStmt(a.ts))
  {
    hide ParseExpr, RExpr, UsesDeclared;
    SameExpr(sigs, Step(a));
  }

  lemma SamePrint(sigs: seq<Sig>, a: At)
    requires !a.crashed && Head(a.ts) == KwPrint
    ensures SameS(sigs, a, Want(RCondition(sigs, Step(a)), Semi), ParseStmt(a.ts))
  {
    hide ParseCondition, RCondition, UsesDeclared;
    SameCondition(sigs, Step(a));
  }

  lemma {:induction false} SameBlock(sigs: seq<Sig>, a: At)
    requires !a.crashed && Head(a.ts) == LBrace
    ensures SameS(sigs, a, RBlock(sigs, a), ParseStmt(a.ts))
    decreases |a.ts|, 0
  {
    hide ParseStmts, RStmts, ScopedSeq, Pushed, Popped;
    SameStmts(sigs, Step(a).(open := Pushed(a.open)));
  }

  lemma {:induction false} SameIf(sigs: seq<Sig>, a: At)
    requires !a.crashed && Head(a.ts) == KwIf
    ensures SameS(sigs, a, RIf(sigs, a), ParseStmt(a.ts))
    decreases |a.ts|, 0
  {
    hide ParseCondition, RCondition, UsesDeclared;
    SameCondition(sigs, Step(a));
    var c := ParseCondition(Tail(a.ts));
    if c.Parsed? {
      var b := RCondition(sigs, Step(a));
      SameStmt(sigs, b);
      var t := ParseStmt(c.rest);
      if t.Parsed? && Head(t.rest) == KwElse && RStmt(sigs, b).ts == t.rest { SameStmt(sigs, Step(RStmt(sigs, b))); }
    }
  }

  lemma {:induction false} SameWhile(sigs: seq<Sig>, a: At)
    requires !a.crashed && Head(a.ts) == KwWhile
    ensures SameS(sigs, a, RStmt(sigs, a), ParseStmt(a.ts))
    decreases |a.ts|, 0
  {
    hide ParseCondition, RCondition, UsesDeclared;
    SameCondition(sigs, Step(a));
    var c := ParseCondition(Tail(a.ts));
    if c.Parsed? { SameStmt(sigs, RCondition(sigs, Step(a))); }
  }

  /** A statement begins neither with `}` nor with `else`. */
  lemma StmtHead(ts: Tokens)
    requires ParseStmt(ts).Parsed?
    ensures Head(ts) != RBrace && Head(ts) != KwElse && Head(ts) != Eof
  {
    hide ParseCondition, ParseStmts, ParseDecl, ParseLvalue, ParseExpr;
  }

  lemma {:induction false} SameStmts(sigs: seq<Sig>, a: At)
    requires !a.crashed
    ensures var p := ParseStmts(a.ts);
            Follows(a, RStmts(sigs, a), p, if p.Parsed? then ScopedSeq(sigs, a.open, p.v) else None)
    decreases |a.ts|, 2
  {
    hide ParseStmt, RStmt, Scoped;
    if Head(a.ts) != RBrace && Head(a.ts) != Eof {
      var p := ParseStmt(a.ts);
      if p.Parsed? { StmtHead(a.ts); }
      if !a.err {
        SameStmt(sigs, a);
        var b := RStmt(sigs, a);
        if !b.err { SameStmts(sigs, b); }
        if p.Parsed? {
          var q := ParseStmts(p.rest);
          if q.Parsed? { StopsAtStmt(p, q, b); }
        }
      }
    }
  }

  /** The tree of a sequence, and where the walk of a block can stop between its statements. */
  lemma StopsAtStmt(p: Parse<SStmt>, q: Parse<seq<SStmt>>, b: At)
    requires p.Parsed? && q.Parsed? && q == ParseStmts(p.rest)
    ensures ([p.v] + q.v)[1..] == q.v
    ensures b.ts == p.rest ==> Head(b.ts) != KwElse && (Head(b.ts) == RBrace ==> q.rest == p.rest)
  {
    hide ParseStmt;
    if Head(p.rest) != RBrace && Head(p.rest) != Eof { StmtHead(p.rest); }
  }

  /** The innermost scope with the parameters added. */
  function WithParams(open: Open, params: seq<Param>): Open
    decreases params
  {
    if params == [] then open else WithParams(WithName(open, params[0].x), params[1..])
  }

  /** The walk of a parameter list: what the grammar accepts is read to the same place, without a crash. */
  ghost predicate FollowsAll<T(!new)>(a: At, r: At, p: Parse<T>, open: Open) {
    && (!r.err <==> !a.err && p.Parsed?)
    && (p.Parsed? ==> !r.crashed && r.ts == p.rest && r.open == open)
  }

  lemma SameParam(a: At)
    requires !a.crashed
    ensures var p := ParseParam(a.ts); FollowsAll(a, RParam(a), p, if p.Parsed? then WithName(a.open, p.v.x) else [])
  {
    hide WithName;
  }

  lemma {:induction false} SameParams(a: At)
    requires !a.crashed
    ensures var p := ParseParams(a.ts); FollowsAll(a, RParams(a), p, if p.Parsed? then WithParams(a.open, p.v) else [])
    decreases |a.ts|
  {
    hide ParseParam, RParam, WithName;
    if Head(a.ts) != RParen && Head(a.ts) != Eof {
      SameParam(a);
      var p := ParseParam(a.ts);
      if p.Parsed? {
        if Head(p.rest) == Comma {
          SameParams(Step(RParam(a)));
          var q := ParseParams(Tail(p.rest));
          if q.Parsed? { assert ([p.v] + q.v)[1..] == q.v; }
        } else {
          assert [p.v][1..] == [];
        }
      }
    }
  }

  lemma {:induction false} WithParamsIs(scope: set<Name>, params: seq<Param>)
    ensures WithParams([scope], params) == [scope + ParamNames(params, |params|)]
    decreases params
  {
    hide ParamNames;
    FirstParam(params);
    if params != [] {
      var x, more := params[0].x, ParamNames(params[1..], |params| - 1);
      assert WithName([scope], x) == [scope + {x}];
      WithParamsIs(scope + {x}, params[1..]);
      assert (scope + {x}) + more == scope + ({x} + more);
    } else {
      assert scope + {} == scope;
    }
  }

  lemma FirstParam(params: seq<Param>)
    ensures ParamNames(params, |params|) ==
            if params == [] then {} else {params[0].x} + ParamNames(params[1..], |params| - 1)
  {
    if params != [] {
      forall i | 0 <= i < |params| ensures params[i].x in {params[0].x} + ParamNames(params[1..], |params| - 1) {
        if i > 0 { assert params[1..][i - 1] == params[i]; }
      }
      forall i | 0 <= i < |params| - 1 ensures params[1..][i].x in ParamNames(params, |params|) {
        assert params[1..][i] == params[i + 1];
      }
    }
  }

  lemma SameHeader(a: At)
    requires !a.crashed
    ensures var p := ParseParamList(a.ts);
            FollowsAll(a, RHeader(a), p, if p.Parsed? then [ParamNames(p.v, |p.v|)] else [])
  {
    hide ParseParams, RParams, ParamNames;
    SameParams(Want(a, LParen).(open := [{}]));
    var p := ParseParams(Tail(a.ts));
    if p.Parsed? {
      WithParamsIs({}, p.v);
      assert {} + ParamNames(p.v, |p.v|) == ParamNames(p.v, |p.v|);
    }
  }

  lemma SameBody(sigs: seq<Sig>, a: At)
    requires !a.crashed
    ensures var p := ParseBody(a.ts);
            var s := if p.Parsed? then ScopedSeq(sigs, Pushed(a.open), p.v) else None;
            Follows(a, RBlock(sigs, a), p, if s.Some? then Some(Popped(s.value)) else None)
  {
    hide ParseStmts, RStmts, ScopedSeq, Pushed, Popped;
    SameStmts(sigs, Want(a, LBrace).(open := Pushed(a.open)));
  }

  lemma SameFunc(sigs: seq<Sig>, a: At)
    requires !a.crashed && !a.err
    ensures var r, p := RFunc(sigs, a), ParseFunc(a.ts);
            && (!r.err <==> p.Parsed? && FuncScoped(sigs, p.v)) && (!r.err ==> r.ts == p.rest)
            && (p.Parsed? ==> !r.crashed)
  {
    hide ParseFunc, ParseParamList, ParseBody, RHeader, RBlock, ScopedSeq, ParamNames;
    FuncInParts(a.ts);
    var b := Step(RType(a));
    SameHeader(b);
    var p := ParseParamList(b.ts);
    if p.Parsed? {
      var params := ParamNames(p.v, |p.v|);
      SameBody(sigs, RHeader(b));
      assert Pushed([params]) == [params, {}];
    }
  }

  /** For every token sequence and whatever headers there are: no error means that the grammar accepts, to the
      same place, and that every name is declared where it is used; and nothing the grammar accepts crashes. */
  lemma {:induction false} SameProgram(sigs: seq<Sig>, a: At)
    requires !a.crashed && !a.err
    ensures var r, p := RProgram(sigs, a), ParseProgram(a.ts);
            && (!r.err <==> p.Parsed? && AllScoped(sigs, p.v)) && (!r.err ==> r.ts == p.rest)
            && (p.Parsed? ==> !r.crashed)
    decreases |a.ts|
  {
    hide ParseFunc, RFunc, FuncScoped;
    if Head(a.ts) != Eof {
      SameFunc(sigs, a);
      var p := ParseFunc(a.ts);
      if p.Parsed? {
        var r := RFunc(sigs, a);
        if !r.err { SameProgram(sigs, r); }
        var q := ParseProgram(p.rest);
        if q.Parsed? { ScopedFromFirst(sigs, p.v, q.v); }
      }
    }
  }

  lemma ScopedFromFirst(sigs: seq<Sig>, f: SFunc, fs: SProgram)
    ensures AllScoped(sigs, [f] + fs) <==> FuncScoped(sigs, f) && AllScoped(sigs, fs)
  {
    hide FuncScoped;
    assert ([f] + fs)[0] == f;
    assert forall k :: 0 <= k < |fs| ==> ([f] + fs)[k + 1] == fs[k];
  }

  // ----- no verdict -----

  /** The walk has crashed exactly if the last name read is not one; all before it are. */
  ghost predicate Sane(a: At) {
    && (forall i :: 0 <= i < |a.names| - 1 ==> a.names[i].Ident?)
    && (a.crashed <==> a.names != [] && !a.names[|a.names| - 1].Ident?)
  }

  lemma QuietSane(a: At, r: At)
    requires Sane(a) && Quiet(a, r)
    ensures Sane(r)
  {
  }

  /** A name is read, other things may be, and the name is entered. */
  lemma NameSane(a: At, b: At, t: Token)
    requires Sane(a) && !a.crashed && b.names == a.names + [t] && b.crashed == a.crashed
    ensures Sane(Insert(b, t))
  {
  }

  lemma DeclSane(sigs: seq<Sig>, a: At)
    requires Sane(a) && !a.crashed
    ensures Sane(RDecl(sigs, a))
  {
    hide RExpr, Sane;
    var b := Step(ReadName(a));
    var c :=
      if Head(b.ts) == LBracket then Want(RExpr(sigs, Step(b)), RBracket)
      else if Head(b.ts) == Equals then RExpr(sigs, Step(b))
      else b;
    NameSane(a, c, Head(a.ts));
    var d := Insert(c, Head(a.ts));
    if !d.crashed { QuietSane(d, Want(d, Semi)); }
  }

  lemma {:induction false} StmtSane(sigs: seq<Sig>, a: At)
    requires Sane(a) && !a.crashed
    ensures Sane(RStmt(sigs, a))
    decreases |a.ts|, 2
  {
    hide RCondition, RLvalue, RDecl, RBlock, RReturn, Sane;
    match Head(a.ts)
    case LBrace => BlockSane(sigs, a);
    case KwInt =>
      StepSane(a);
      DeclSane(sigs, Step(a));
    case KwDouble =>
      StepSane(a);
      DeclSane(sigs, Step(a));
    case KwIf =>
      var c := RCondition(sigs, Step(a));
      QuietSane(a, c);
      StmtSane(sigs, c);
      var b := RStmt(sigs, c);
      if Head(b.ts) == KwElse && !b.crashed {
        StepSane(b);
        StmtSane(sigs, Step(b));
      }
    case KwWhile =>
      var c := RCondition(sigs, Step(a));
      QuietSane(a, c);
      StmtSane(sigs, c);
    case _ => QuietSane(a, RStmt(sigs, a));
  }

  lemma StepSane(a: At)
    requires Sane(a)
    ensures Sane(Step(a))
  {
  }

  lemma {:induction false} BlockSane(sigs: seq<Sig>, a: At)
    requires Sane(a) && !a.crashed
    ensures Sane(RBlock(sigs, a))
    decreases |a.ts|, 1
  {
    hide RStmts;
    StmtsSane(sigs, Want(a, LBrace).(open := Pushed(a.open)));
  }

  lemma {:induction false} StmtsSane(sigs: seq<Sig>, a: At)
    requires Sane(a) && !a.crashed
    ensures Sane(RStmts(sigs, a))
    decreases |a.ts|, if a.err then 0 else 3
  {
    hide RStmt, Sane;
    if Head(a.ts) != RBrace && Head(a.ts) != Eof && !a.err {
      StmtSane(sigs, a);
      var b := RStmt(sigs, a);
      if !b.err { StmtsSane(sigs, b); }
    }
  }

  lemma ParamSane(a: At)
    requires Sane(a) && !a.crashed
    ensures Sane(RParam(a))
  {
    hide Sane;
    var b := RType(a);
    var c := ReadName(b);
    var d := if Head(b.ts).Ident? then Step(c) else c;
    NameSane(a, if Head(d.ts) == LBracket then Want(Step(d), RBracket) else d, Head(b.ts));
  }

  lemma {:induction false} ParamsSane(a: At)
    requires Sane(a) && !a.crashed
    ensures Sane(RParams(a))
    decreases |a.ts|
  {
    hide RParam, Sane;
    if Head(a.ts) != RParen && Head(a.ts) != Eof {
      ParamSane(a);
      var b := RParam(a);
      if Head(b.ts) == Comma && !b.crashed {
        StepSane(b);
        ParamsSane(Step(b));
      }
    }
  }

  lemma FuncSane(sigs: seq<Sig>, a: At)
    requires Sane(a) && !a.crashed
    ensures Sane(RFunc(sigs, a))
  {
    hide RParams, RBlock;
    var b := Step(RType(a));
    ParamsSane(Want(b, LParen).(open := [{}]));
    var c := RHeader(b);
    if !c.crashed { BlockSane(sigs, c); }
  }

  lemma {:induction false} ProgramSane(sigs: seq<Sig>, a: At)
    requires Sane(a) && !a.crashed
    ensures Sane(RProgram(sigs, a))
    decreases |a.ts|
  {
    hide RFunc, Sane;
    if Head(a.ts) != Eof && !a.err {
      FuncSane(sigs, a);
      var b := RFunc(sigs, a);
      if !b.err { ProgramSane(sigs, b); }
    }
  }

  /** What the compiler comes to. */
  datatype Verdict = Accepts | Rejects | NullRead

  function VerdictOf(r: At): Verdict { if r.crashed then NullRead else if r.err then Rejects else Accepts }

  /** There is no verdict exactly when the walk reads a token that is no identifier as the name of a declaration or
      parameter, and it is the last such name it reads. */
  lemma NullReadIff(sigs: seq<Sig>, ts: Tokens)
    ensures var r := RProgram(sigs, Begin(ts));
            && (VerdictOf(r).NullRead? <==> exists i :: 0 <= i < |r.names| && !r.names[i].Ident?)
            && forall i :: 0 <= i < |r.names| - 1 ==> r.names[i].Ident?
  {
    hide RProgram;
    ProgramSane(sigs, Begin(ts));
    var r := RProgram(sigs, Begin(ts));
    if r.crashed { assert !r.names[|r.names| - 1].Ident?; }
  }

  /** With the headers of the first pass: nothing the grammar accepts is without a verdict, and the verdict, where
      there is one, is that of rejecting at once: the grammar accepts and elaboration does not reject, away from
      redeclarations, which nothing reports. */
  lemma SameVerdict(ts: Tokens)
    ensures var r, p := RProgram(Scan(ts, []), Begin(ts)), ParseProgram(ts);
            var v := VerdictOf(r);
            && (v.NullRead? ==> p.Failed?)
            && (p.Failed? ==> !v.Accepts?)
            && (p.Parsed? && !ElabProgram(p.v).Redeclared? ==>
                  v == if ElabProgram(p.v).Rejected? then Rejects else Accepts)
            && (v.Accepts? ==> r.ts == p.rest)
  {
    hide RProgram, ParseProgram, Scan, AllScoped, ElabFuncs;
    var p := ParseProgram(ts);
    SameProgram(Scan(ts, []), Begin(ts));
    if p.Parsed? {
      ScanFindsFunctions(ts, []);
      assert [] + SigsOf(p.v) == SigsOf(p.v);
      ElabFuncsIff(SigsOf(p.v), p.v);
    }
  }
}
