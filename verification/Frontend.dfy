/** The parser as it runs: one pass over tokens pulled from the lexer, resolving names through the symbol
    table and inserting conversions as it goes. */
module Frontend {
  import opened Values
  import opened Ast
  import opened Surface
  import opened Elab
  import opened Syntax
  import opened Lexer
  import opened Symtab
  import opened Prescan
  import opened EndOfInput
  import opened ParseFacts

  class Parser {
    const lx: TokenSource
    const sigs: seq<Sig>
    var table: Table
    /** Indices of the current token and the one after it. */
    var cur: nat
    var peek: nat
    var nlocals: nat

    /** The array that the current token was taken from, as a pointer to the token would have it; whether that has
        ever been an array given up since; and whether the parser has advanced past the end. */
    ghost var held: array<Token>
    ghost var dangled: bool
    ghost var overran: bool

    ghost var Repr: set<object>

    ghost predicate Valid()
      reads this, Repr
      ensures Valid() ==> this in Repr && table.g != []
    {
      && this in Repr && lx in Repr && lx.toks in Repr && table in Repr && table.slots in Repr
      && lx.Valid() && table.Valid()
      && peek == cur + 1 && lx.ntok == cur + 2 && table.bound <= nlocals
      && (Dangling() <==> Full(cur + 1)) && (dangled <==> cur + 1 >= 256)
      && (!overran ==> cur <= |lx.All()|)
    }

    /** A pointer to the current token would point into an array that has been given up. */
    ghost predicate Dangling()
      reads this, lx
    {
      held != lx.toks
    }

    /** Primes the two tokens of lookahead. */
    constructor (lx: TokenSource, sigs: seq<Sig>, hash: Name -> nat)
      requires lx.Valid() && lx.ntok == 0
      modifies lx, lx.toks
      ensures Valid() && fresh(Repr - {lx, old(lx.toks)}) && this.lx == lx && this.sigs == sigs
      ensures Rest() == lx.All() && !overran
    {
      hide TokenSource.Valid, Table.Valid, LexAll, Capacity;
      this.lx := lx;
      this.sigs := sigs;
      table := new Table(hash);
      nlocals := 0;
      cur, peek := 0, 0;
      dangled, overran := false, false;
      held := lx.toks;
      new;
      cur := lx.Next();
      held := lx.toks;
      peek := lx.Next();
      Repr := {this, lx, lx.toks, table, table.slots};
    }

    /** The tokens still to come, the current one first. */
    ghost function Rest(): Tokens
      reads this, Repr
      requires Valid()
    {
      From(lx.All(), cur)
    }

    function Cur(): (t: Token)
      reads this, Repr
      requires Valid()
      ensures t == Head(Rest())
    {
      lx.toks[cur]
    }

    function Peek(): (t: Token)
      reads this, Repr
      requires Valid()
      ensures t == Head(Tail(Rest()))
    {
      FromNext(lx.All(), cur);
      lx.toks[peek]
    }

    /** Nothing has been declared since. */
    twostate predicate Steady()
      reads this, table
    {
      && table == old(table) && table.g == old(table.g) && table.clean == old(table.clean)
      && nlocals == old(nlocals) && overran == old(overran)
    }

    /** The cursor moves on by one token. */
    method Fetch()
      requires lx.Valid() && peek == cur + 1 && lx.ntok == cur + 2
      modifies this`cur, this`peek, this`held, lx, lx.toks
      ensures lx.Valid() && cur == old(cur) + 1 && peek == cur + 1 && lx.ntok == cur + 2
      ensures held == old(lx.toks) && (lx.toks == held || fresh(lx.toks))
      ensures Dangling() <==> Full(cur + 1)
    {
      hide TokenSource.Valid, TokenSource.All, Capacity, Full;
      cur := peek;
      held := lx.toks;
      peek := lx.Next();
    }

    /** `advance`: however often the token array has moved, the indices name the next two tokens.  A pointer to the
        current one dangles exactly when fetching the token after it has found the array full. */
    method Advance()
      requires Valid()
      modifies Repr
      ensures Valid() && fresh(Repr - old(Repr))
      ensures table == old(table) && table.g == old(table.g) && table.clean == old(table.clean)
      ensures nlocals == old(nlocals)
      ensures Rest() == Tail(old(Rest())) && cur == old(cur) + 1
      ensures overran == (old(overran) || old(Rest()) == [])
      ensures Dangling() <==> Full(old(lx.ntok))
      ensures dangled == (old(dangled) || Dangling())
    {
      hide TokenSource.Valid, Table.Valid, TokenSource.All, Capacity, Full, From, Tail, Head;
      FullFrom(lx.ntok);
      FromNext(lx.All(), cur);
      FromEmpty(lx.All(), cur);
      overran := overran || cur >= |lx.All()|;
      Fetch();
      dangled := dangled || held != lx.toks;
      Repr := Repr + {lx.toks};
    }

    /** With everything before the first end of input read, and nothing beyond the end. */
    lemma AtEnd()
      requires Valid() && !overran && Rest() == Onwards(lx.All())
      ensures dangled <==> |Before(lx.All())| >= 255
    {
      hide Table.Valid, TokenSource.Valid, LexAll, Before, Onwards;
      OnwardsIsEmptyIff(lx.All());
      assert lx.All() == Before(lx.All()) + Onwards(lx.All());
    }

    /** `expect`: false is a diagnostic. */
    method ExpectTok(t: Token) returns (ok: bool)
      requires Valid() && t != Eof
      modifies Repr
      ensures Valid() && fresh(Repr - old(Repr)) && Steady()
      ensures ok == Expect(old(Rest()), t).Parsed?
      ensures ok ==> Rest() == Expect(old(Rest()), t).rest
    {
      ok := Cur() == t;
      if ok { Advance(); }
    }

    /** `symtab_lookup` of a name. */
    method FindName(x: Name) returns (b: Option<Binding>)
      requires Valid()
      ensures table.clean ==> b == Lookup(table.g, x)
    {
      b := table.Find(x, table.g, table.stale);
    }

    // ----- expressions -----

    /** `r` and the tokens left are right for the parse `p`.  Once a scope has declared a name twice, only
        the extent of the expression is promised. */
    ghost predicate GoodE(r: Option<Expr>, p: Parse<SExpr>)
      reads this, Repr
      requires Valid()
    {
      && (r.Some? ==> p.Parsed? && Rest() == p.rest)
      && (table.clean ==>
            if p.Parsed? && ElabE(sigs, table.g, p.v).Done? then r == Some(ElabE(sigs, table.g, p.v).v) else r == None)
    }

    method ParseE() returns (r: Option<Expr>)
      requires Valid()
      modifies Repr
      ensures Valid() && fresh(Repr - old(Repr)) && Steady()
      ensures GoodE(r, ParseExpr(old(Rest())))
      decreases |Rest()|, 6
    {
      hide Parser.Valid, Parser.Rest, Parser.Cur, Parser.Peek, ParseLevel;
      r := ParseBinary(0);
    }

    /** `parse_expr`, `parse_add`, `parse_mul`: operands of one level, folded to the left. */
    method ParseBinary(lvl: nat) returns (r: Option<Expr>)
      requires Valid() && lvl <= 2
      modifies Repr
      ensures Valid() && fresh(Repr - old(Repr)) && Steady()
      ensures GoodE(r, ParseLevel(lvl, old(Rest())))
      decreases |Rest()|, 5 - lvl
    {
      hide Parser.Valid, Parser.Rest, Parser.Cur, Parser.Peek, ParseOperand, ElabE;
      ghost var want := ParseLevel(lvl, Rest());
      ghost var first := ParseOperand(lvl, Rest());
      var a := ParseOp(lvl);
      if a.None? {
        if first.Parsed? { MoreRejects(sigs, table.g, lvl, first.v, first.rest); }
        return None;
      }
      var e := a.value;
      ghost var s := first.v;
      while Cur().Sym? && Level(Cur().op) == lvl
        invariant Valid() && fresh(Repr - old(Repr)) && Steady()
        invariant |Rest()| < |old(Rest())|
        invariant ParseMore(lvl, s, Rest()) == want
        invariant table.clean ==> ElabE(sigs, table.g, s) == Done(e)
        decreases |Rest()|
      {
        var op := Cur().op;
        Advance();
        ghost var second := ParseOperand(lvl, Rest());
        var b := ParseOp(lvl);
        if b.None? {
          if second.Parsed? {
            BinElab(sigs, table.g, op, s, second.v);
            MoreRejects(sigs, table.g, lvl, SBin(op, s, second.v), second.rest);
          }
          return None;
        }
        BinElab(sigs, table.g, op, s, second.v);
        s := SBin(op, s, second.v);
        e := MakeBinop(op, e, b.value);
      }
      r := Some(e);
    }

    method ParseOp(lvl: nat) returns (r: Option<Expr>)
      requires Valid() && lvl <= 2
      modifies Repr
      ensures Valid() && fresh(Repr - old(Repr)) && Steady()
      ensures GoodE(r, ParseOperand(lvl, old(Rest())))
      decreases |Rest()|, 5 - lvl, 0
    {
      hide Parser.Valid, Parser.Rest, Parser.Cur, Parser.Peek, ParseLevel, ParseUnary;
      if lvl == 2 { r := ParseUn(); } else { r := ParseBinary(lvl + 1); }
    }

    /** `parse_unary`. */
    method ParseUn() returns (r: Option<Expr>)
      requires Valid()
      modifies Repr
      ensures Valid() && fresh(Repr - old(Repr)) && Steady()
      ensures GoodE(r, ParseUnary(old(Rest())))
      decreases |Rest()|, 2
    {
      hide Parser.Valid, Parser.Rest, Parser.Cur, Parser.Peek, ParsePrimary;
      if Cur() == Sym(Sub) {
        Advance();
        var e := ParseUn();
        r := if e.Some? then Some(Neg(e.value)) else None;
      } else {
        r := ParsePrim();
      }
    }

    /** `parse_primary`. */
    method ParsePrim() returns (r: Option<Expr>)
      requires Valid()
      modifies Repr
      ensures Valid() && fresh(Repr - old(Repr)) && Steady()
      ensures GoodE(r, ParsePrimary(old(Rest())))
      decreases |Rest()|, 1
    {
      hide Parser.Valid, Parser.Rest, Parser.Cur, Parser.Peek, ParseExpr, ParseArgs;
      match Cur()
      case IntTok(i) =>
        Advance();
        r := Some(IntLit(i));
      case DblTok(d) =>
        Advance();
        r := Some(DblLit(d));
      case LParen =>
        Advance();
        r := ParseE();
        if r.None? { return; }
        var ok := ExpectTok(RParen);
        if !ok { r := None; }
      case Ident(x) => r := ParseName(x);
      case _ => r := None;
    }

    /** A call, an indexed variable or a variable. */
    method ParseName(x: Name) returns (r: Option<Expr>)
      requires Valid() && Head(Rest()) == Ident(x)
      modifies Repr
      ensures Valid() && fresh(Repr - old(Repr)) && Steady()
      ensures GoodE(r, ParsePrimary(old(Rest())))
      decreases |Rest()|, 0
    {
      hide Parser.Valid, Parser.Rest, Parser.Cur, Parser.Peek, ParsePrimary, ElabE;
      ghost var ts := Rest();
      Advance();
      if Cur() == LParen {
        Advance();
        r := ParseCall(x, ts);
      } else {
        r := ParseVar(x, ts);
      }
    }

    /** After the parenthesis of a call. */
    method ParseCall(x: Name, ghost ts: Tokens) returns (r: Option<Expr>)
      requires Valid() && Head(ts) == Ident(x) && Head(Tail(ts)) == LParen && Rest() == Tail(Tail(ts))
      modifies Repr
      ensures Valid() && fresh(Repr - old(Repr)) && Steady()
      ensures GoodE(r, ParsePrimary(ts))
      decreases |Rest()|, 8
    {
      hide Parser.Valid, Parser.Rest, Parser.Cur, Parser.Peek, ParseExpr, ParseArgs, ElabArgs;
      var k := FindSig(sigs, x);
      if k >= |sigs| { return None; }
      var args := ParseArguments(sigs[k].params);
      if args.None? { return None; }
      var ok := ExpectTok(RParen);
      r := if ok then Some(Call(k, args.value, sigs[k].ret)) else None;
    }

    /** After a name that is no call. */
    method ParseVar(x: Name, ghost ts: Tokens) returns (r: Option<Expr>)
      requires Valid() && Head(ts) == Ident(x) && Head(Tail(ts)) != LParen && Rest() == Tail(ts)
      modifies Repr
      ensures Valid() && fresh(Repr - old(Repr)) && Steady()
      ensures GoodE(r, ParsePrimary(ts))
      decreases |Rest()|, 8
    {
      hide Parser.Valid, Parser.Rest, Parser.Cur, Parser.Peek, ParseExpr, ParseArgs, ElabArgs, Lookup;
      var b := FindName(x);
      if b.None? { return None; }
      var v := Var(b.value.slot, b.value.ty);
      if Cur() != LBracket { return Some(v); }
      Advance();
      var idx := ParseExprBracket();
      r := if idx.Some? then Some(Index(v, Coerce(idx.value, TInt))) else None;
    }

    /** An expression and the bracket after it. */
    method ParseExprBracket() returns (r: Option<Expr>)
      requires Valid()
      modifies Repr
      ensures Valid() && fresh(Repr - old(Repr)) && Steady()
      ensures GoodE(r, ExprBracket(old(Rest())))
      decreases |Rest()|, 7
    {
      hide Parser.Valid, Parser.Rest, Parser.Cur, Parser.Peek, ParseExpr, ElabE;
      r := ParseE();
      if r.None? { return; }
      var ok := ExpectTok(RBracket);
      if !ok { r := None; }
    }

    ghost predicate GoodArgs(r: Option<seq<Expr>>, p: Parse<seq<SExpr>>, tys: seq<Type>)
      reads this, Repr
      requires Valid()
    {
      && (r.Some? ==> p.Parsed? && Rest() == p.rest)
      && (table.clean ==>
            if p.Parsed? && ElabArgs(sigs, table.g, p.v, tys).Done? then r == Some(ElabArgs(sigs, table.g, p.v, tys).v)
            else r == None)
    }

    /** The argument loop of a call. */
    method ParseArguments(tys: seq<Type>) returns (r: Option<seq<Expr>>)
      requires Valid()
      modifies Repr
      ensures Valid() && fresh(Repr - old(Repr)) && Steady()
      ensures GoodArgs(r, ParseArgs(old(Rest())), tys)
      decreases |Rest()|, 7
    {
      hide Parser.Valid, Parser.Rest, Parser.Cur, Parser.Peek, ParseExpr, ElabE, ElabArgs, ParseArgs, Prepend;
      ghost var want := ParseArgs(Rest());
      ghost var done: seq<SExpr> := [];
      var args: seq<Expr> := [];
      NoArgs(sigs, table.g, tys, want);
      ArgsUnfold(Rest(), done);
      while Cur() != RParen && Cur() != Eof
        invariant Valid() && fresh(Repr - old(Repr)) && Steady()
        invariant |Rest()| <= |old(Rest())|
        invariant Prepend(done, ParseArgs(Rest())) == want
        invariant |args| == |done|
        invariant table.clean ==> ElabArgs(sigs, table.g, done, tys) == Done(args)
        decreases |Rest()|
      {
        ghost var ts := Rest();
        ghost var p := ParseExpr(ts);
        ArgsUnfold(ts, done);
        var e := ParseE();
        if e.None? {
          ArgsRejectAll(sigs, table.g, done, ts, tys);
          return None;
        }
        ArgsElab(sigs, table.g, done, p.v, tys);
        args := args + [if |args| < |tys| then Coerce(e.value, tys[|args|]) else e.value];
        done := done + [p.v];
        if Cur() != Comma { return Some(args); }
        Advance();
      }
      ArgsUnfold(Rest(), done);
      r := Some(args);
    }

    // ----- statements -----

    /** `r`, the tokens left and the symbol table are right for the parse `p` begun with scopes `g0`, `n0`
        slots handed out and, if `clean0`, no name declared twice in one scope. */
    ghost predicate GoodS(r: Option<Stmt>, p: Parse<SStmt>, g0: Scopes, n0: nat, clean0: bool)
      reads this, Repr
      requires Valid()
    {
      && (r.Some? ==> p.Parsed? && Rest() == p.rest && |table.g| == |g0|)
      && (clean0 && g0 != [] && p.Parsed? ==>
            match ElabS(sigs, None, g0, n0, p.v)
            case Done(q) => r == Some(q.st) && table.clean && table.g == q.g && nlocals == q.n
            case Rejected => r == None
            case Redeclared => true)
    }

    /** An expression in parentheses. */
    method ParseCond() returns (r: Option<Expr>)
      requires Valid()
      modifies Repr
      ensures Valid() && fresh(Repr - old(Repr)) && Steady()
      ensures GoodE(r, ParseCondition(old(Rest())))
      decreases |Rest()|, 7
    {
      hide Parser.Valid, Parser.Rest, Parser.Cur, Parser.Peek, ParseExpr, ElabE;
      var ok := ExpectTok(LParen);
      if !ok { return None; }
      r := ParseE();
      if r.None? { return; }
      ok := ExpectTok(RParen);
      if !ok { r := None; }
    }

    /** An expression and the semicolon after it. */
    method ParseExprSemi() returns (r: Option<Expr>)
      requires Valid()
      modifies Repr
      ensures Valid() && fresh(Repr - old(Repr)) && Steady()
      ensures GoodE(r, ExprSemi(old(Rest())))
      decreases |Rest()|, 7
    {
      hide Parser.Valid, Parser.Rest, Parser.Cur, Parser.Peek, ParseExpr, ElabE;
      r := ParseE();
      if r.None? { return; }
      var ok := ExpectTok(Semi);
      if !ok { r := None; }
    }

    method PushScope()
      requires Valid()
      modifies Repr
      ensures Valid() && fresh(Repr - old(Repr)) && Rest() == old(Rest()) && overran == old(overran)
      ensures table.g == old(table.g) + [map[]] && table.clean == old(table.clean) && nlocals == old(nlocals)
    {
      table.ScopePush();
    }

    method PopScope()
      requires Valid() && |table.g| > 1
      modifies Repr
      ensures Valid() && fresh(Repr - old(Repr)) && Rest() == old(Rest()) && overran == old(overran)
      ensures table.g == old(table.g)[..|old(table.g)| - 1] && table.clean == old(table.clean)
              && nlocals == old(nlocals)
    {
      table.ScopePop();
    }

    /** Declares a name in the innermost scope, in the next free slot. */
    method Declare(x: Name, ty: Type)
      requires Valid()
      modifies Repr
      ensures Valid() && fresh(Repr - old(Repr)) && Rest() == old(Rest()) && overran == old(overran)
      ensures old(table.g) != [] && table.g == Bind(old(table.g), x, Binding(ty, old(nlocals)))
      ensures nlocals == old(nlocals) + 1
      ensures table.clean == (old(table.clean) && x !in old(table.g)[|old(table.g)| - 1])
    {
      table.Insert(x, ty, nlocals);
      nlocals := nlocals + 1;
      Repr := Repr + {table.slots};
    }

    /** The end of a declaration: the name is entered, then the semicolon is read. */
    method DeclareSemi(x: Name, ty: Type) returns (ok: bool)
      requires Valid()
      modifies Repr
      ensures Valid() && fresh(Repr - old(Repr)) && overran == old(overran)
      ensures old(table.g) != [] && table.g == Bind(old(table.g), x, Binding(ty, old(nlocals)))
      ensures nlocals == old(nlocals) + 1
      ensures table.clean == (old(table.clean) && x !in old(table.g)[|old(table.g)| - 1])
      ensures ok == (Head(old(Rest())) == Semi)
      ensures ok ==> Rest() == Tail(old(Rest()))
    {
      hide Parser.Valid, Parser.Rest, Parser.Cur, Parser.Peek, Bind;
      Declare(x, ty);
      ok := ExpectTok(Semi);
    }

    /** `parse_stmt`. */
    method ParseSt() returns (r: Option<Stmt>)
      requires Valid()
      modifies Repr
      ensures Valid() && fresh(Repr - old(Repr)) && overran == old(overran)
      ensures GoodS(r, ParseStmt(old(Rest())), old(table.g), old(nlocals), old(table.clean))
      decreases |Rest()|, 10
    {
      hide Parser.Valid, Parser.Rest, Parser.Cur, Parser.Peek, ParseStmt, ElabS, Parser.GoodS;
      match Cur()
      case LBrace => r := ParseBlock();
      case KwInt => r := ParseDeclaration(TInt);
      case KwDouble => r := ParseDeclaration(TDouble);
      case KwIf => r := ParseIf();
      case KwWhile => r := ParseWhile();
      case KwReturn => r := ParseReturn();
      case KwPrint => r := ParsePrint();
      case Ident(x) => r := ParseLvalueStmt(x);
      case _ =>
        r := None;
        NoStmt(Rest());
        NoneIsGood(ParseStmt(Rest()));
    }

    /** A failed parse wants no result. */
    lemma NoneIsGood(p: Parse<SStmt>)
      requires Valid() && p.Failed?
      ensures GoodS(None, p, table.g, nlocals, table.clean)
    {
    }

    /** `parse_block`. */
    method ParseBlock() returns (r: Option<Stmt>)
      requires Valid() && Head(Rest()) == LBrace
      modifies Repr
      ensures Valid() && fresh(Repr - old(Repr)) && overran == old(overran)
      ensures GoodS(r, ParseStmt(old(Rest())), old(table.g), old(nlocals), old(table.clean))
      decreases |Rest()|, 9
    {
      hide Parser.Valid, Parser.Rest, Parser.Cur, Parser.Peek, ParseStmts, ElabSeq, ParseStmt, ElabS;
      BlockUnfold(sigs, table.g, nlocals, Rest());
      Advance();
      PushScope();
      var ss := ParseList();
      if ss.None? { return None; }
      PopScope();
      var ok := ExpectTok(RBrace);
      r := if ok then Some(Block(ss.value)) else None;
    }

    /** `if`, with or without `else`. */
    method ParseIf() returns (r: Option<Stmt>)
      requires Valid() && Head(Rest()) == KwIf
      modifies Repr
      ensures Valid() && fresh(Repr - old(Repr)) && overran == old(overran)
      ensures GoodS(r, ParseStmt(old(Rest())), old(table.g), old(nlocals), old(table.clean))
      decreases |Rest()|, 9
    {
      hide Parser.Valid, Parser.Rest, Parser.Cur, Parser.Peek, ParseCondition, ElabE, Coerce, ParseStmt, ElabS;
      ghost var p := ParseStmt(Rest());
      ParseIfUnfold(Rest());
      if p.Parsed? { IfUnfold(sigs, table.g, nlocals, p.v.cond, p.v.thn, p.v.els); }
      Advance();
      var c := ParseCond();
      if c.None? { return None; }
      var thn := ParseSt();
      if thn.None? { return None; }
      var els := ParseElse();
      if els.None? { return None; }
      r := Some(If(Coerce(c.value, TInt), thn.value, els.value));
    }

    /** The optional second branch. */
    method ParseElse() returns (r: Option<Option<Stmt>>)
      requires Valid()
      modifies Repr
      ensures Valid() && fresh(Repr - old(Repr)) && overran == old(overran)
      ensures if Head(old(Rest())) == KwElse then
                GoodS(if r.Some? then r.value else None, ParseStmt(Tail(old(Rest()))),
                      old(table.g), old(nlocals), old(table.clean))
                && (r.Some? ==> r.value.Some?)
              else r == Some(None) && Rest() == old(Rest()) && Steady()
      decreases |Rest()|, 11
    {
      hide Parser.Valid, Parser.Rest, Parser.Cur, Parser.Peek, ParseStmt, ElabS;
      if Cur() != KwElse { return Some(None); }
      Advance();
      var els := ParseSt();
      r := if els.Some? then Some(els) else None;
    }

    /** `while`. */
    method ParseWhile() returns (r: Option<Stmt>)
      requires Valid() && Head(Rest()) == KwWhile
      modifies Repr
      ensures Valid() && fresh(Repr - old(Repr)) && overran == old(overran)
      ensures GoodS(r, ParseStmt(old(Rest())), old(table.g), old(nlocals), old(table.clean))
      decreases |Rest()|, 9
    {
      hide Parser.Valid, Parser.Rest, Parser.Cur, Parser.Peek, ParseCondition, ElabE, Coerce;
      Advance();
      var c := ParseCond();
      if c.None? { return None; }
      var body := ParseSt();
      if body.None? { return None; }
      r := Some(While(Coerce(c.value, TInt), body.value));
    }

    /** `return`; the value is converted once the whole function is known. */
    method ParseReturn() returns (r: Option<Stmt>)
      requires Valid() && Head(Rest()) == KwReturn
      modifies Repr
      ensures Valid() && fresh(Repr - old(Repr)) && overran == old(overran)
      ensures GoodS(r, ParseStmt(old(Rest())), old(table.g), old(nlocals), old(table.clean))
      decreases |Rest()|, 9
    {
      hide Parser.Valid, Parser.Rest, Parser.Cur, Parser.Peek, ParseExpr, ElabE;
      Advance();
      if Cur() == Semi {
        Advance();
        return Some(Return(None));
      }
      var e := ParseExprSemi();
      r := if e.Some? then Some(Return(e)) else None;
    }

    /** `print`. */
    method ParsePrint() returns (r: Option<Stmt>)
      requires Valid() && Head(Rest()) == KwPrint
      modifies Repr
      ensures Valid() && fresh(Repr - old(Repr)) && overran == old(overran)
      ensures GoodS(r, ParseStmt(old(Rest())), old(table.g), old(nlocals), old(table.clean))
      decreases |Rest()|, 9
    {
      hide Parser.Valid, Parser.Rest, Parser.Cur, Parser.Peek, ParseCondition, ElabE;
      Advance();
      var e := ParseCond();
      if e.None? { return None; }
      var ok := ExpectTok(Semi);
      r := if ok then Some(Print(e.value)) else None;
    }

    /** `parse_decl`: the initialiser is read before the name is declared. */
    method ParseDeclaration(ty: Type) returns (r: Option<Stmt>)
      requires Valid() && TypeOfKw(Head(Rest())) == Some(ty)
      modifies Repr
      ensures Valid() && fresh(Repr - old(Repr)) && overran == old(overran)
      ensures GoodS(r, ParseStmt(old(Rest())), old(table.g), old(nlocals), old(table.clean))
      decreases |Rest()|, 9
    {
      hide Parser.Valid, Parser.Rest, Parser.Cur, Parser.Peek, ParseExpr, ElabS, Parser.GoodS, ParseDecl;
      ghost var ts := Rest();
      StmtIsDecl(ty, ts);
      Advance();
      if !Cur().Ident? {
        DeclFails(ty, Rest());
        NoneIsGood(ParseDecl(ty, Rest()));
        return None;
      }
      var x := Cur().x;
      Advance();
      if Cur() == LBracket {
        r := ParseArrayDecl(ty, x, Tail(ts));
      } else if Cur() == Equals {
        r := ParseInitDecl(ty, x, Tail(ts));
      } else {
        r := ParsePlainDecl(ty, x, Tail(ts));
      }
    }

    method ParseArrayDecl(ty: Type, x: Name, ghost ts: Tokens) returns (r: Option<Stmt>)
      requires Valid() && Head(ts) == Ident(x) && Rest() == Tail(ts) && Head(Rest()) == LBracket
      modifies Repr
      ensures Valid() && fresh(Repr - old(Repr)) && overran == old(overran)
      ensures GoodS(r, ParseDecl(ty, ts), old(table.g), old(nlocals), old(table.clean))
      decreases |Rest()|, 9
    {
      hide Parser.Valid, Parser.Rest, Parser.Cur, Parser.Peek, ParseDecl, ExprBracket, ElabE, Coerce;
      ArrayDeclUnfold(ty, x, ts);
      Advance();
      var len := ParseExprBracket();
      if len.None? { return None; }
      var d := DeclArray(ty, nlocals, Coerce(len.value, TInt));
      var ok := DeclareSemi(x, ArrayOf(ty));
      r := if ok then Some(d) else None;
    }

    method ParseInitDecl(ty: Type, x: Name, ghost ts: Tokens) returns (r: Option<Stmt>)
      requires Valid() && Head(ts) == Ident(x) && Rest() == Tail(ts) && Head(Rest()) == Equals
      modifies Repr
      ensures Valid() && fresh(Repr - old(Repr)) && overran == old(overran)
      ensures GoodS(r, ParseDecl(ty, ts), old(table.g), old(nlocals), old(table.clean))
      decreases |Rest()|, 9
    {
      hide Parser.Valid, Parser.Rest, Parser.Cur, Parser.Peek, ParseExpr, ParseDecl, ElabE, Coerce, ElabS;
      ghost var p := ParseExpr(Tail(Tail(ts)));
      InitDeclUnfold(ty, x, ts);
      if p.Parsed? { DeclUnfold(sigs, table.g, nlocals, ty, x, p.v); }
      Advance();
      var e := ParseE();
      if e.None? { return None; }
      var d := Decl(ty, nlocals, Some(Coerce(e.value, ty)));
      var ok := DeclareSemi(x, ty);
      r := if ok then Some(d) else None;
    }

    method ParsePlainDecl(ty: Type, x: Name, ghost ts: Tokens) returns (r: Option<Stmt>)
      requires Valid() && Head(ts) == Ident(x) && Rest() == Tail(ts)
      requires Head(Rest()) != LBracket && Head(Rest()) != Equals
      modifies Repr
      ensures Valid() && fresh(Repr - old(Repr)) && overran == old(overran)
      ensures GoodS(r, ParseDecl(ty, ts), old(table.g), old(nlocals), old(table.clean))
    {
      hide Parser.Valid, Parser.Rest, Parser.Cur, Parser.Peek, ParseExpr;
      var d := Decl(ty, nlocals, None);
      var ok := DeclareSemi(x, ty);
      r := if ok then Some(d) else None;
    }

    /** `parse_lvalue_stmt`: a call when a parenthesis follows the name, else an assignment. */
    method ParseLvalueStmt(x: Name) returns (r: Option<Stmt>)
      requires Valid() && Head(Rest()) == Ident(x)
      modifies Repr
      ensures Valid() && fresh(Repr - old(Repr)) && overran == old(overran)
      ensures GoodS(r, ParseStmt(old(Rest())), old(table.g), old(nlocals), old(table.clean))
      decreases |Rest()|, 9
    {
      hide Parser.Valid, Parser.Rest, Parser.Cur, Parser.Peek, ParseExpr, ElabS, Parser.GoodS, ParseLvalue;
      ghost var ts := Rest();
      StmtIsLvalue(x, ts);
      if Peek() == LParen {
        r := ParseCallStmt(x);
      } else {
        var b := FindName(x);
        Advance();
        if Cur() == LBracket {
          r := ParseIndexedStore(x, b, ts);
        } else {
          r := ParseStore(x, b, ts);
        }
      }
    }

    method ParseCallStmt(x: Name) returns (r: Option<Stmt>)
      requires Valid() && Head(Rest()) == Ident(x) && Head(Tail(Rest())) == LParen
      modifies Repr
      ensures Valid() && fresh(Repr - old(Repr)) && overran == old(overran)
      ensures GoodS(r, ParseLvalue(x, old(Rest())), old(table.g), old(nlocals), old(table.clean))
      decreases |Rest()|, 8
    {
      hide Parser.Valid, Parser.Rest, Parser.Cur, Parser.Peek, ParseExpr, ElabE;
      var e := ParseExprSemi();
      r := if e.Some? then Some(ExprStmt(e.value)) else None;
    }

    method ParseIndexedStore(x: Name, b: Option<Binding>, ghost ts: Tokens) returns (r: Option<Stmt>)
      requires Valid() && Head(ts) == Ident(x) && Rest() == Tail(ts) && Head(Rest()) == LBracket
      requires table.clean ==> b == Lookup(table.g, x)
      modifies Repr
      ensures Valid() && fresh(Repr - old(Repr)) && overran == old(overran)
      ensures GoodS(r, ParseLvalue(x, ts), old(table.g), old(nlocals), old(table.clean))
      decreases |Rest()|, 8
    {
      hide Parser.Valid, Parser.Rest, Parser.Cur, Parser.Peek, ParseLvalue, ExprBracket, ExprSemi, ElabE, Coerce,
           Lookup;
      IndexedStoreUnfold(x, ts);
      if b.None? { return None; }
      Advance();
      var idx := ParseExprBracket();
      if idx.None? { return None; }
      var ok := ExpectTok(Equals);
      if !ok { return None; }
      var e := ParseExprSemi();
      if e.None? { return None; }
      var v := Var(b.value.slot, b.value.ty);
      r := Some(AssignIndex(v, Coerce(idx.value, TInt), Coerce(e.value, Elem(b.value.ty))));
    }

    method ParseStore(x: Name, b: Option<Binding>, ghost ts: Tokens) returns (r: Option<Stmt>)
      requires Valid() && Head(ts) == Ident(x) && Rest() == Tail(ts)
      requires Head(Rest()) != LBracket && Head(Rest()) != LParen
      requires table.clean ==> b == Lookup(table.g, x)
      modifies Repr
      ensures Valid() && fresh(Repr - old(Repr)) && overran == old(overran)
      ensures GoodS(r, ParseLvalue(x, ts), old(table.g), old(nlocals), old(table.clean))
      decreases |Rest()|, 8
    {
      hide Parser.Valid, Parser.Rest, Parser.Cur, Parser.Peek, ParseExpr, ElabE, Coerce, Lookup;
      if b.None? { return None; }
      var ok := ExpectTok(Equals);
      if !ok { return None; }
      var e := ParseExprSemi();
      r := if e.Some? then Some(Assign(b.value.slot, Coerce(e.value, b.value.ty))) else None;
    }

    ghost predicate GoodList(r: Option<seq<Stmt>>, p: Parse<seq<SStmt>>, g0: Scopes, n0: nat, clean0: bool)
      reads this, Repr
      requires Valid()
    {
      && (r.Some? ==> p.Parsed? && Rest() == p.rest && |table.g| == |g0|)
      && (clean0 && g0 != [] && p.Parsed? ==>
            match ElabSeq(sigs, None, g0, n0, p.v)
            case Done(q) => r == Some(q.st) && table.clean && table.g == q.g && nlocals == q.n
            case Rejected => r == None
            case Redeclared => true)
    }

    /** The statements read so far, `done`, have given `list` and the present symbol table. */
    ghost predicate SoFar(list: seq<Stmt>, done: seq<SStmt>, g0: Scopes, n0: nat, clean0: bool)
      reads this, Repr
      requires Valid()
    {
      clean0 && g0 != [] ==>
        match ElabSeq(sigs, None, g0, n0, done)
        case Done(q) => list == q.st && table.clean && table.g == q.g && nlocals == q.n
        case Rejected => false
        case Redeclared => true
    }

    /** The statement loop of a block. */
    method ParseList() returns (r: Option<seq<Stmt>>)
      requires Valid()
      modifies Repr
      ensures Valid() && fresh(Repr - old(Repr)) && overran == old(overran)
      ensures GoodList(r, ParseStmts(old(Rest())), old(table.g), old(nlocals), old(table.clean))
      decreases |Rest()|, 11
    {
      hide Parser.Valid, Parser.Rest, Parser.Cur, Parser.Peek, ParseStmt, ParseStmts, ElabS;
      ghost var g0, n0, clean0, want := table.g, nlocals, table.clean, ParseStmts(Rest());
      ghost var done: seq<SStmt> := [];
      var list: seq<Stmt> := [];
      StmtsUnfold(Rest(), done);
      assert want.Parsed? ==> [] + want.v == want.v;
      while Cur() != RBrace && Cur() != Eof
        invariant Valid() && fresh(Repr - old(Repr)) && |table.g| == |g0| && overran == old(overran)
        invariant |Rest()| <= |old(Rest())|
        invariant Prepend(done, ParseStmts(Rest())) == want
        invariant SoFar(list, done, g0, n0, clean0)
        decreases |Rest()|
      {
        ghost var p := ParseStmt(Rest());
        StmtsUnfold(Rest(), done);
        var st := ParseSt();
        if p.Parsed? { SeqElab(sigs, None, g0, n0, done, p.v); }
        if st.None? {
          if p.Parsed? && ParseStmts(p.rest).Parsed? {
            SeqFailureStays(sigs, None, g0, n0, done + [p.v], ParseStmts(p.rest).v);
          }
          return None;
        }
        list := list + [st.value];
        done := done + [p.v];
      }
      StmtsUnfold(Rest(), done);
      r := Some(list);
    }

    // ----- functions -----

    /** A fresh symbol table: `symtab_init` at the start of a function. */
    method ResetTable()
      requires Valid()
      modifies Repr
      ensures Valid() && fresh(Repr - old(Repr)) && Rest() == old(Rest()) && overran == old(overran)
      ensures table.g == [map[]] && table.clean && nlocals == 0
    {
      table := new Table(table.hash);
      nlocals := 0;
      Repr := Repr + {table, table.slots};
    }

    /** One parameter. */
    method ParsePar() returns (r: Option<Param>)
      requires Valid()
      modifies Repr
      ensures Valid() && fresh(Repr - old(Repr)) && Steady()
      ensures var p := ParseParam(old(Rest())); if p.Parsed? then r == Some(p.v) && Rest() == p.rest else r == None
    {
      hide Parser.Valid, Parser.Rest, Parser.Cur, Parser.Peek;
      if Cur() != KwInt && Cur() != KwDouble { return None; }
      var ty := if Cur() == KwInt then TInt else TDouble;
      Advance();
      if !Cur().Ident? { return None; }
      var x := Cur().x;
      Advance();
      var isArray := Brackets();
      r := if isArray.None? then None else Some(Param(if isArray.value then ArrayOf(ty) else ty, x));
    }

    /** `[]` behind the name of a parameter, if it is there; half of it is a diagnostic. */
    method Brackets() returns (r: Option<bool>)
      requires Valid()
      modifies Repr
      ensures Valid() && fresh(Repr - old(Repr)) && Steady()
      ensures var ts := old(Rest());
              if Head(ts) != LBracket then r == Some(false) && Rest() == ts
              else if Head(Tail(ts)) != RBracket then r == None
              else r == Some(true) && Rest() == Tail(Tail(ts))
    {
      hide Parser.Valid, Parser.Rest, Parser.Cur, Parser.Peek;
      if Cur() != LBracket { return Some(false); }
      Advance();
      var ok := ExpectTok(RBracket);
      r := if ok then Some(true) else None;
    }

    /** A parameter takes the next slot. */
    method DeclareParam(ghost done: seq<Param>, p: Param)
      requires Valid() && ParamsSoFar(done, table.g, table.clean, nlocals)
      modifies Repr
      ensures Valid() && fresh(Repr - old(Repr)) && Rest() == old(Rest()) && overran == old(overran)
      ensures ParamsSoFar(done + [p], table.g, table.clean, nlocals)
    {
      hide Parser.Valid, Parser.Rest, ElabParams;
      OneMoreParam(done, p);
      Declare(p.x, p.ty);
    }

    /** The parameter loop: slots 0, 1, 2, ... */
    method ParseParameters() returns (r: Option<nat>, ghost params: seq<Param>)
      requires Valid() && table.g == [map[]] && table.clean && nlocals == 0
      modifies Repr
      ensures Valid() && fresh(Repr - old(Repr)) && overran == old(overran)
      ensures match ParseParams(old(Rest()))
              case Parsed(ps, rest) => r == Some(|ps|) && params == ps && Rest() == rest
                  && ParamsSoFar(ps, table.g, table.clean, nlocals)
              case Failed => r == None
    {
      hide Parser.Valid, Parser.Rest, Parser.Cur, Parser.Peek, ParamsSoFar, ParseParam, ParseParams;
      ghost var done: seq<Param> := [];
      var n := 0;
      NoParams();
      ParamsUnfold(Rest(), done);
      ghost var want := ParseParams(Rest());
      assert want.Parsed? ==> [] + want.v == want.v;
      while Cur() != RParen && Cur() != Eof
        invariant Valid() && fresh(Repr - old(Repr)) && n == |done| && overran == old(overran)
        invariant Prepend(done, ParseParams(Rest())) == want
        invariant ParamsSoFar(done, table.g, table.clean, nlocals)
        decreases |Rest()|
      {
        ParamsUnfold(Rest(), done);
        var p := ParsePar();
        if p.None? { return None, []; }
        DeclareParam(done, p.value);
        n := n + 1;
        done := done + [p.value];
        if Cur() != Comma { return Some(n), done; }
        Advance();
      }
      ParamsUnfold(Rest(), done);
      return Some(n), done;
    }

    ghost predicate GoodF(r: Option<Func>, p: Parse<SFunc>)
      reads this, Repr
      requires Valid()
    {
      && (r.Some? ==> p.Parsed? && Rest() == p.rest)
      && (p.Parsed? ==>
            match ElabFunc(sigs, p.v)
            case Done(f) => r == Some(f)
            case Rejected => r == None
            case Redeclared => true)
    }

    /** `parse_func`. */
    method ParseFn() returns (r: Option<Func>)
      requires Valid()
      modifies Repr
      ensures Valid() && fresh(Repr - old(Repr)) && overran == old(overran)
      ensures GoodF(r, ParseFunc(old(Rest())))
    {
      hide Parser.Valid, Parser.Rest, Parser.Cur, Parser.Peek, ParseFunc, ParseParams, BodyOf, ElabFunc, ElabParams;
      FuncUnfold(Rest());
      if Cur() != KwInt && Cur() != KwDouble { return None; }
      var ret := if Cur() == KwInt then TInt else TDouble;
      Advance();
      if !Cur().Ident? { return None; }
      var name := Cur().x;
      Advance();
      if Cur() != LParen { return None; }
      Advance();
      ResetTable();
      r := ParseFromParams(ret, name);
    }

    /** After the opening parenthesis of a function. */
    method ParseFromParams(ret: Type, name: Name) returns (r: Option<Func>)
      requires Valid() && table.g == [map[]] && table.clean && nlocals == 0
      modifies Repr
      ensures Valid() && fresh(Repr - old(Repr)) && overran == old(overran)
      ensures GoodF(r, FromParams(ret, name, old(Rest())))
    {
      hide Parser.Valid, Parser.Rest, Parser.Cur, Parser.Peek, ParseParams, BodyOf, ElabFunc, ElabParams;
      var np, params := ParseParameters();
      if np.None? || Cur() != RParen { return None; }
      Advance();
      r := ParseBody(ret, name, np.value, params);
    }

    /** The braces of a function: its block, with returned values converted at the end. */
    method ParseBody(ret: Type, name: Name, np: nat, ghost params: seq<Param>) returns (r: Option<Func>)
      requires Valid() && ParamsSoFar(params, table.g, table.clean, nlocals) && np == |params|
      modifies Repr
      ensures Valid() && fresh(Repr - old(Repr)) && overran == old(overran)
      ensures GoodF(r, BodyOf(ret, name, params, old(Rest())))
    {
      hide Parser.Valid, Parser.Rest, Parser.Cur, Parser.Peek, ParseStmts, ParseStmt, BodyOf, ElabParams, ElabS;
      if Cur() != LBrace {
        NoBody(ret, name, params, Rest());
        return None;
      }
      ghost var ts, g0, n0, clean0 := Rest(), table.g, nlocals, table.clean;
      BodyIsBlock(ret, name, params, ts);
      if ParseStmt(ts).Parsed? { ReturnsCoercedAfterwards(sigs, ret, g0, n0, ParseStmt(ts).v); }
      var st := ParseBlock();
      r := if st.Some? then Some(Func(name, np, nlocals, CoerceReturns(st.value, ret))) else None;
    }
  }

  lemma FromEmpty(ts: Tokens, k: nat)
    ensures From(ts, k) == [] <==> k >= |ts|
  {
  }

  /** The array is full for the first time at 256 tokens. */
  lemma FullFrom(n: nat)
    ensures (n < 256 ==> !Full(n)) && (n == 256 ==> Full(n))
  {
  }

  /** The scope holds the parameters `done`, unless one name occurred twice. */
  ghost predicate ParamsSoFar(done: seq<Param>, g: Scopes, clean: bool, n: nat) {
    && n == |done| && |g| == 1
    && match ElabParams(done, |done|)
       case Done(scope) => clean && g == [scope]
       case Rejected => false
       case Redeclared => true
  }

  lemma NoParams()
    ensures ParamsSoFar([], [map[]], true, 0)
  {
  }

  /** Declaring one more parameter. */
  lemma OneMoreParam(done: seq<Param>, p: Param)
    ensures var n := |done|;
            ElabParams(done + [p], n + 1) ==
            match ElabParams(done, n)
            case Done(scope) => if p.x in scope then Redeclared else Done(scope[p.x := Binding(p.ty, n)])
            case e => e
  {
    ParamsPrefix(done, [p], |done|);
    assert (done + [p])[|done|] == p;
  }

  // ----- programs -----

  /** `prescan`: its own pass over the source. */
  method PrescanSigs(strtod: string -> Lit, src: string) returns (sigs: seq<Sig>)
    ensures sigs == Scan(LexAll(strtod, src, 0), [])
  {
    hide Scan, LexAll, TokenSource.Valid;
    var lx := new TokenSource(strtod, src);
    ghost var all := lx.All();
    var k := lx.Next();
    sigs := [];
    while lx.Tok(k) != Eof
      invariant lx.Valid() && fresh(lx) && fresh(lx.toks) && lx.All() == all && k + 1 == lx.ntok
      invariant Scan(From(all, k), sigs) == Scan(all, [])
      decreases |From(all, k)|
    {
      FromNext(all, k);
      sigs, k := PrescanOne(lx, k, sigs);
    }
    ScanUnfold(From(all, k), sigs);
  }

  /** One round of the pass, from token `k` on. */
  method PrescanOne(lx: TokenSource, k: nat, before: seq<Sig>) returns (sigs: seq<Sig>, next: nat)
    requires lx.Valid() && k + 1 == lx.ntok && lx.Tok(k) != Eof
    modifies lx, lx.toks
    ensures lx.Valid() && (lx.toks == old(lx.toks) || fresh(lx.toks)) && next + 1 == lx.ntok && next > k
    ensures Scan(From(lx.All(), next), sigs) == Scan(From(lx.All(), k), before)
  {
    hide Scan, ScanParams, LexAll, TokenSource.Valid, From, Tail;
    ghost var all := lx.All();
    ScanUnfold(From(all, k), before);
    var ret := TypeOfKw(lx.Tok(k));
    sigs := before;
    var at := k;
    if ret.Some? { sigs, at := PrescanHeader(lx, k, ret.value, before); }
    FromNext(all, at);
    next := lx.Next();
  }

  /** A name and a parenthesis after a type begin a header; anything else is passed over. */
  method PrescanHeader(lx: TokenSource, k: nat, ret: Type, before: seq<Sig>) returns (sigs: seq<Sig>, at: nat)
    requires lx.Valid() && k + 1 == lx.ntok && TypeOfKw(lx.Tok(k)) == Some(ret)
    modifies lx, lx.toks
    ensures lx.Valid() && (lx.toks == old(lx.toks) || fresh(lx.toks)) && at + 1 == lx.ntok && at > k
    ensures Scan(Tail(From(lx.All(), at)), sigs) == Scan(From(lx.All(), k), before)
  {
    hide Scan, ScanParams, LexAll, TokenSource.Valid, From, Tail;
    ghost var all := lx.All();
    ScanUnfold(From(all, k), before);
    FromNext(all, k);
    FromNext(all, k + 1);
    FromNext(all, k + 2);
    sigs := before;
    var nm := lx.Next();
    at := lx.Next();
    if lx.Tok(nm).Ident? && lx.Tok(at) == LParen {
      var name := lx.Tok(nm).x;
      var tys;
      tys, at := PrescanParams(lx);
      sigs := sigs + [Sig(name, ret, tys)];
    }
  }

  /** The parameter loop of the pre-scan; `k` ends on the closing parenthesis or the end. */
  method PrescanParams(lx: TokenSource) returns (tys: seq<Type>, k: nat)
    requires lx.Valid()
    modifies lx, lx.toks
    ensures lx.Valid() && (lx.toks == old(lx.toks) || fresh(lx.toks)) && k + 1 == lx.ntok && k >= old(lx.ntok)
    ensures ScanParams(From(lx.All(), old(lx.ntok)), []) == Header(tys, From(lx.All(), k))
  {
    hide ScanParams, LexAll, TokenSource.Valid;
    ghost var all := lx.All();
    k := lx.Next();
    tys := [];
    ghost var whole := ScanParams(From(all, k), []);
    while lx.Tok(k) != RParen && lx.Tok(k) != Eof
      invariant lx.Valid() && (lx.toks == old(lx.toks) || fresh(lx.toks)) && lx.All() == all
      invariant k + 1 == lx.ntok && k >= old(lx.ntok)
      invariant ScanParams(From(all, k), tys) == whole
      decreases |From(all, k)|
    {
      FromNext(all, k);
      tys, k := PrescanParam(lx, k, tys);
    }
    ScanParamsUnfold(From(all, k), tys);
  }

  /** One round of that loop. */
  method PrescanParam(lx: TokenSource, k: nat, before: seq<Type>) returns (tys: seq<Type>, next: nat)
    requires lx.Valid() && k + 1 == lx.ntok && lx.Tok(k) != RParen && lx.Tok(k) != Eof
    modifies lx, lx.toks
    ensures lx.Valid() && (lx.toks == old(lx.toks) || fresh(lx.toks)) && next + 1 == lx.ntok && next > k
    ensures ScanParams(From(lx.All(), next), tys) == ScanParams(From(lx.All(), k), before)
  {
    hide ScanParams, LexAll, TokenSource.Valid;
    ghost var all := lx.All();
    ScanParamsUnfold(From(all, k), before);
    FromNext(all, k);
    FromNext(all, k + 1);
    FromNext(all, k + 2);
    var ty := TypeOfKw(lx.Tok(k));
    tys := before;
    if ty.Some? && |tys| < MAX_SIG_PARAMS {
      var name := lx.Next();
      if lx.Tok(name) == LBracket {
        var _ := lx.Next();
        tys := tys + [ArrayOf(ty.value)];
      } else {
        tys := tys + [ty.value];
      }
    }
    next := PrescanComma(lx);
  }

  /** The next token, or the one after it when that is a comma. */
  method PrescanComma(lx: TokenSource) returns (next: nat)
    requires lx.Valid()
    modifies lx, lx.toks
    ensures lx.Valid() && (lx.toks == old(lx.toks) || fresh(lx.toks)) && next + 1 == lx.ntok && next >= old(lx.ntok)
    ensures From(lx.All(), next) == SkipComma(From(lx.All(), old(lx.ntok)))
  {
    hide LexAll, TokenSource.Valid;
    next := lx.Next();
    FromNext(lx.All(), next);
    if lx.Tok(next) == Comma { next := lx.Next(); }
  }

  /** What the functions read so far have given. */
  ghost predicate GoodProgram(r: Option<Program>, q: Elab<Program>) {
    match q
    case Done(prog) => r == Some(prog)
    case Rejected => r == None
    case Redeclared => true
  }

  /** `parse_program`, from the text: the elaborated program, or nothing when there is a diagnostic.  A pointer to
      the current token has dangled on the way to an accepted program exactly when there are 255 tokens or more,
      those up to a stray character: with the two of lookahead, more than the 256 the first array takes. */
  method ParseText(strtod: string -> Lit, hash: Name -> nat,
                   src: string) returns (r: Option<Program>, ghost dangled: bool)
    ensures var p := ParseProgram(LexAll(strtod, src, 0));
            if p.Failed? then r == None else GoodProgram(r, ElabProgram(p.v))
    ensures r.Some? ==> (dangled <==> |Before(LexAll(strtod, src, 0))| >= 255)
  {
    hide Parser.Valid, Parser.Rest, Parser.Cur, TokenSource.Valid, LexAll, Scan, ParseProgram;
    var sigs := PrescanSigs(strtod, src);
    var lx := new TokenSource(strtod, src);
    ghost var all := lx.All();
    var parser := new Parser(lx, sigs, hash);
    if ParseProgram(all).Parsed? {
      ScanFindsFunctions(all, []);
      assert [] + SigsOf(ParseProgram(all).v) == SigsOf(ParseProgram(all).v);
    }
    r := ParseFunctions(parser);
    dangled := parser.dangled;
    if r.Some? {
      StopsAtFirstEof(all);
      parser.AtEnd();
    }
  }

  /** The loop over functions. */
  method ParseFunctions(parser: Parser) returns (r: Option<Program>)
    requires parser.Valid()
    modifies parser.Repr
    ensures parser.Valid() && parser.overran == old(parser.overran)
    ensures var p := ParseProgram(old(parser.Rest()));
            if p.Failed? then r == None else GoodProgram(r, ElabFuncs(parser.sigs, p.v))
    ensures var p := ParseProgram(old(parser.Rest())); r.Some? ==> p.Parsed? && parser.Rest() == p.rest
  {
    hide Parser.Valid, Parser.Rest, Parser.Cur, ParseProgram, ParseFunc, ElabFuncs, ElabFunc;
    ghost var want := ParseProgram(parser.Rest());
    ghost var done: SProgram := [];
    var prog: Program := [];
    FuncsUnfold(parser.Rest(), done, parser.sigs);
    while parser.Cur() != Eof
      invariant parser.Valid() && fresh(parser.Repr - old(parser.Repr)) && parser.overran == old(parser.overran)
      invariant Prepend(done, ParseProgram(parser.Rest())) == want
      invariant GoodProgram(Some(prog), ElabFuncs(parser.sigs, done))
      decreases |parser.Rest()|
    {
      ghost var p := ParseFunc(parser.Rest());
      FuncsUnfold(parser.Rest(), done, parser.sigs);
      var f := parser.ParseFn();
      if p.Parsed? { FuncsElab(parser.sigs, done, p.v); }
      if f.None? {
        if p.Parsed? && ParseProgram(p.rest).Parsed? {
          FuncsFailureStays(parser.sigs, done + [p.v], ParseProgram(p.rest).v);
        }
        return None;
      }
      prog := prog + [f.value];
      done := done + [p.v];
    }
    FuncsUnfold(parser.Rest(), done, parser.sigs);
    r := Some(prog);
  }
}
