/** Name resolution and typing: what the parser's semantic actions turn a source program into. */
module Elab {
  import opened Values
  import opened Ast
  import opened Surface

  datatype Binding = Binding(ty: Type, slot: nat)

  /** Scopes of the symbol table, outermost first. */
  type Scopes = seq<map<Name, Binding>>

  function Lookup(g: Scopes, x: Name): Option<Binding> {
    var k := ScopeOf(g, x);
    if k < 0 then None else Some(g[k][x])
  }

  /** An elaborated construct, or a diagnostic, or a redeclaration in one scope.  The last is accepted by
      the compiler, but which of the two declarations a name then means depends on the layout of its hash
      table. */
  datatype Elab<+T> = Done(v: T) | Rejected | Redeclared {
    predicate IsFailure() { !Done? }

    function PropagateFailure<U>(): (r: Elab<U>)
      requires IsFailure()
      ensures !r.Done?
    {
      if Rejected? then Rejected else Redeclared
    }

    function Extract(): T
      requires Done?
    {
      v
    }
  }

  function Coerce(e: Expr, target: Type): Expr {
    if TypeOf(e).TInt? && target.TDouble? then I2D(e)
    else if TypeOf(e).TDouble? && target.TInt? then D2I(e)
    else e
  }

  /** A returned value, converted once the function's type is known. */
  function CoerceReturn(e: Expr, ret: Option<Type>): Expr {
    if ret.Some? then Coerce(e, ret.value) else e
  }

  function MakeBinop(op: Op, a: Expr, b: Expr): Expr {
    var common := Common(TypeOf(a), TypeOf(b));
    Bin(op, Coerce(a, common), Coerce(b, common), if IsComparison(op) then TInt else common)
  }

  function ElabE(sigs: seq<Sig>, g: Scopes, e: SExpr): Elab<Expr>
    decreases e, 1
  {
    match e
    case SInt(i) => Done(IntLit(i))
    case SDbl(d) => Done(DblLit(d))
    case SVar(x) =>
      (match Lookup(g, x)
       case None => Rejected
       case Some(b) => Done(Var(b.slot, b.ty)))
    case SIndex(x, i) =>
      (match Lookup(g, x)
       case None => Rejected
       case Some(b) =>
         var idx :- ElabE(sigs, g, i);
         Done(Index(Var(b.slot, b.ty), Coerce(idx, TInt))))
    case SNeg(a) =>
      var e1 :- ElabE(sigs, g, a);
      Done(Neg(e1))
    case SBin(op, a, b) =>
      var x :- ElabE(sigs, g, a);
      var y :- ElabE(sigs, g, b);
      Done(MakeBinop(op, x, y))
    case SCall(f, args) =>
      var k := FindSig(sigs, f);
      if k >= |sigs| then Rejected
      else
        var es :- ElabArgs(sigs, g, args, sigs[k].params);
        Done(Call(k, es, sigs[k].ret))
  }

  function ElabArgs(sigs: seq<Sig>, g: Scopes, es: seq<SExpr>, tys: seq<Type>): (r: Elab<seq<Expr>>)
    ensures r.Done? ==> |r.v| == |es|
    decreases es, 0
  {
    if es == [] then Done([])
    else
      var e :- ElabE(sigs, g, es[0]);
      var rest :- ElabArgs(sigs, g, es[1..], if tys == [] then [] else tys[1..]);
      Done([if tys == [] then e else Coerce(e, tys[0])] + rest)
  }

  /** A statement, the scopes after it, and the number of slots handed out so far. */
  datatype Piece<+T> = Piece(st: T, g: Scopes, n: nat)

  /** A new binding in the innermost scope. */
  function Bind(g: Scopes, x: Name, b: Binding): Scopes
    requires g != []
  {
    g[|g| - 1 := g[|g| - 1][x := b]]
  }

  function ElabDecl<T>(g: Scopes, n: nat, x: Name, ty: Type, st: T): Elab<Piece<T>>
    requires g != []
  {
    if x in g[|g| - 1] then Redeclared else Done(Piece(st, Bind(g, x, Binding(ty, n)), n + 1))
  }

  /** `ret` is the type returned values are converted to, if that is already done. */
  function ElabS(sigs: seq<Sig>, ret: Option<Type>, g: Scopes, n: nat, st: SStmt): (r: Elab<Piece<Stmt>>)
    requires g != []
    ensures r.Done? ==> |r.v.g| == |g| && r.v.n >= n
    decreases st, 1
  {
    match st
    case SBlock(body) =>
      var p :- ElabSeq(sigs, ret, g + [map[]], n, body);
      Done(Piece(Block(p.st), p.g[..|g|], p.n))
    case SDecl(ty, x, init) =>
      (match init
       case None => ElabDecl(g, n, x, ty, Decl(ty, n, None))
       case Some(e0) =>
         var e :- ElabE(sigs, g, e0);
         ElabDecl(g, n, x, ty, Decl(ty, n, Some(Coerce(e, ty)))))
    case SDeclArray(elem, x, len) =>
      var e :- ElabE(sigs, g, len);
      ElabDecl(g, n, x, ArrayOf(elem), DeclArray(elem, n, Coerce(e, TInt)))
    case SAssign(x, e0) =>
      (match Lookup(g, x)
       case None => Rejected
       case Some(b) =>
         var e :- ElabE(sigs, g, e0);
         Done(Piece(Assign(b.slot, Coerce(e, b.ty)), g, n)))
    case SAssignIndex(x, i, e0) =>
      (match Lookup(g, x)
       case None => Rejected
       case Some(b) =>
         var idx :- ElabE(sigs, g, i);
         var e :- ElabE(sigs, g, e0);
         Done(Piece(AssignIndex(Var(b.slot, b.ty), Coerce(idx, TInt), Coerce(e, Elem(b.ty))), g, n)))
    case SIf(c, thn, els) =>
      var e :- ElabE(sigs, g, c);
      var t :- ElabS(sigs, ret, g, n, thn);
      (match els
       case None => Done(Piece(If(Coerce(e, TInt), t.st, None), t.g, t.n))
       case Some(st2) =>
         var f :- ElabS(sigs, ret, t.g, t.n, st2);
         Done(Piece(If(Coerce(e, TInt), t.st, Some(f.st)), f.g, f.n)))
    case SWhile(c, body) =>
      var e :- ElabE(sigs, g, c);
      var b :- ElabS(sigs, ret, g, n, body);
      Done(Piece(While(Coerce(e, TInt), b.st), b.g, b.n))
    case SReturn(value) =>
      (match value
       case None => Done(Piece(Return(None), g, n))
       case Some(e0) =>
         var e :- ElabE(sigs, g, e0);
         Done(Piece(Return(Some(CoerceReturn(e, ret))), g, n)))
    case SExprStmt(e0) =>
      var e :- ElabE(sigs, g, e0);
      Done(Piece(ExprStmt(e), g, n))
    case SPrint(e0) =>
      var e :- ElabE(sigs, g, e0);
      Done(Piece(Print(e), g, n))
  }

  function ElabSeq(sigs: seq<Sig>, ret: Option<Type>, g: Scopes, n: nat, ss: seq<SStmt>): (r: Elab<Piece<seq<Stmt>>>)
    requires g != []
    ensures r.Done? ==> |r.v.g| == |g| && r.v.n >= n
    decreases ss, 0
  {
    if ss == [] then Done(Piece([], g, n))
    else
      var p :- ElabS(sigs, ret, g, n, ss[0]);
      var q :- ElabSeq(sigs, ret, p.g, p.n, ss[1..]);
      Done(Piece([p.st] + q.st, q.g, q.n))
  }

  /** Parameters take the slots from 0 on. */
  function ElabParams(params: seq<Param>, n: nat): Elab<map<Name, Binding>>
    requires n <= |params|
  {
    if n == 0 then Done(map[])
    else
      var scope :- ElabParams(params, n - 1);
      if params[n - 1].x in scope then Redeclared
      else Done(scope[params[n - 1].x := Binding(params[n - 1].ty, n - 1)])
  }

  function ElabFunc(sigs: seq<Sig>, f: SFunc): Elab<Func> {
    var scope :- ElabParams(f.params, |f.params|);
    var body :- ElabS(sigs, Some(f.ret), [scope], |f.params|, SBlock(f.body));
    Done(Func(f.name, |f.params|, body.n, body.st))
  }

  function ElabFuncs(sigs: seq<Sig>, p: SProgram): (r: Elab<Program>)
    ensures r.Done? ==> |r.v| == |p| && forall k :: 0 <= k < |p| ==> ElabFunc(sigs, p[k]) == Done(r.v[k])
  {
    if p == [] then Done([])
    else
      var f :- ElabFunc(sigs, p[0]);
      var fs :- ElabFuncs(sigs, p[1..]);
      Done([f] + fs)
  }

  function ElabProgram(p: SProgram): Elab<Program> { ElabFuncs(SigsOf(p), p) }
}
