/** The source language: programs with names and scopes, and what they mean.  A variable lives in the scope
    that declares it; values are converted where the static types ask for it. */
module Surface {
  import opened Values
  import opened Ast

  /** An interned identifier: two names are the same pointer exactly when they are the same text. */
  type Name = string

  datatype SExpr =
    | SInt(i: int)
    | SDbl(d: Lit)
    | SVar(x: Name)
    | SIndex(x: Name, idx: SExpr)
    | SNeg(e: SExpr)
    | SBin(op: Op, a: SExpr, b: SExpr)
    | SCall(f: Name, args: seq<SExpr>)

  datatype SStmt =
    | SBlock(body: seq<SStmt>)
    | SDecl(ty: Type, x: Name, init: Option<SExpr>)
    | SDeclArray(elem: Type, x: Name, len: SExpr)
    | SAssign(x: Name, e: SExpr)
    | SAssignIndex(x: Name, idx: SExpr, e: SExpr)
    | SIf(cond: SExpr, thn: SStmt, els: Option<SStmt>)
    | SWhile(cond: SExpr, body1: SStmt)
    | SReturn(value: Option<SExpr>)
    | SExprStmt(e: SExpr)
    | SPrint(e: SExpr)

  datatype Param = Param(ty: Type, x: Name)

  datatype SFunc = SFunc(ret: Type, name: Name, params: seq<Param>, body: seq<SStmt>)

  type SProgram = seq<SFunc>

  /** A function header as the pre-scan records it: array parameters by their element type, and only the
      first 32 parameters. */
  datatype Sig = Sig(name: Name, ret: Type, params: seq<Type>)

  const MAX_SIG_PARAMS: nat := 32

  function SigOf(f: SFunc): Sig {
    var n := if |f.params| < MAX_SIG_PARAMS then |f.params| else MAX_SIG_PARAMS;
    Sig(f.name, f.ret, seq(n, i requires 0 <= i < |f.params| => Elem(f.params[i].ty)))
  }

  function SigsOf(p: SProgram): (sigs: seq<Sig>)
    ensures |sigs| == |p|
  {
    seq(|p|, i requires 0 <= i < |p| => SigOf(p[i]))
  }

  /** `find_sig`: the first function of that name. */
  function FindSig(sigs: seq<Sig>, name: Name): (k: nat)
    ensures k <= |sigs|
    ensures k < |sigs| ==> sigs[k].name == name
    ensures forall j :: 0 <= j < k ==> sigs[j].name != name
  {
    if sigs == [] || sigs[0].name == name then 0 else 1 + FindSig(sigs[1..], name)
  }

  /** Type two scalar operands are brought to. */
  function Common(a: Type, b: Type): Type {
    if a.TDouble? || b.TDouble? then TDouble else TInt
  }

  // ----- meaning -----

  datatype Cell = Cell(ty: Type, v: Val)

  /** Scopes, outermost first. */
  type Env = seq<map<Name, Cell>>

  datatype SFlow = SNext(env: Env) | SRet(v: Val)

  /** Index of the innermost scope that declares `x`, or -1. */
  function ScopeOf<T>(env: seq<map<Name, T>>, x: Name): (i: int)
    ensures -1 <= i < |env|
    ensures i >= 0 ==> x in env[i]
    ensures forall j :: i < j < |env| ==> x !in env[j]
  {
    if env == [] then -1
    else if x in env[|env| - 1] then |env| - 1
    else ScopeOf(env[..|env| - 1], x)
  }

  function Convert(fp: Float, c: Cell, target: Type): Val {
    if c.ty.TInt? && target.TDouble? then IntToDouble(fp, c.v)
    else if c.ty.TDouble? && target.TInt? then DoubleToInt(fp, c.v)
    else c.v
  }

  function MeanE(fp: Float, p: SProgram, fuel: nat, e: SExpr, env: Env, s: Store): Res<Cell>
    decreases 2 * fuel, e, 1
  {
    match e
    case SInt(i) => Ok(Cell(TInt, VInt(i)), s)
    case SDbl(d) => Ok(Cell(TDouble, VDbl(d)), s)
    case SVar(x) =>
      var k := ScopeOf(env, x);
      if k < 0 then Wrong else Ok(env[k][x], s)
    case SIndex(x, i) =>
      var k := ScopeOf(env, x);
      if k < 0 then Wrong
      else
        var (idx, s1) :- MeanE(fp, p, fuel, i, env, s);
        var (v, s2) :- Load(fp, env[k][x].v, Convert(fp, idx, TInt), s1);
        Ok(Cell(Elem(env[k][x].ty), v), s2)
    case SNeg(a) =>
      var (c, s1) :- MeanE(fp, p, fuel, a, env, s);
      Ok(Cell(c.ty, Negate(fp, c.v)), s1)
    case SBin(op, a, b) =>
      var (x, s1) :- MeanE(fp, p, fuel, a, env, s);
      var (y, s2) :- MeanE(fp, p, fuel, b, env, s1);
      var common := Common(x.ty, y.ty);
      var (v, s3) :- DoBinop(fp, op, Convert(fp, x, common), Convert(fp, y, common), s2);
      Ok(Cell(if IsComparison(op) then TInt else common, v), s3)
    case SCall(f, args) =>
      var k := FindSig(SigsOf(p), f);
      if k >= |p| then Wrong
      else
        var (vs, s1) :- MeanArgs(fp, p, fuel, args, SigOf(p[k]).params, env, s);
        if fuel == 0 then Timeout
        else
          var (v, s2) :- MeanCall(fp, p, fuel - 1, k, vs, s1);
          Ok(Cell(p[k].ret, v), s2)
  }

  /** Arguments, converted to the recorded parameter types as far as there are any. */
  function MeanArgs(fp: Float, p: SProgram, fuel: nat, es: seq<SExpr>, tys: seq<Type>, env: Env,
                    s: Store): Res<seq<Val>>
    decreases 2 * fuel, es, 0
  {
    if es == [] then Ok([], s)
    else
      var (c, s1) :- MeanE(fp, p, fuel, es[0], env, s);
      var v := if tys == [] then c.v else Convert(fp, c, tys[0]);
      var (vs, s2) :- MeanArgs(fp, p, fuel, es[1..], if tys == [] then [] else tys[1..], env, s1);
      Ok([v] + vs, s2)
  }

  /** The scope of the first `n` parameters; a missing argument is 0. */
  function ParamScope(params: seq<Param>, args: seq<Val>, n: nat): map<Name, Cell>
    requires n <= |params|
  {
    if n == 0 then map[]
    else ParamScope(params, args, n - 1)[params[n - 1].x :=
           Cell(params[n - 1].ty, if n - 1 < |args| then args[n - 1] else ZERO)]
  }

  function MeanCall(fp: Float, p: SProgram, fuel: nat, k: nat, args: seq<Val>, s: Store): Res<Val>
    requires k < |p|
    decreases 2 * fuel + 1
  {
    if |args| > MAX_ARGS then Wrong
    else
      var env := [ParamScope(p[k].params, args, |p[k].params|)];
      var (flow, s1) :- MeanS(fp, p, fuel, SBlock(p[k].body), p[k].ret, env, s);
      match flow
      case SNext(_) => Ok(ZERO, s1)
      case SRet(v) => Ok(v, s1)
  }

  function Declare(env: Env, x: Name, c: Cell): Env
    requires env != []
  {
    env[|env| - 1 := env[|env| - 1][x := c]]
  }


  function MeanS(fp: Float, p: SProgram, fuel: nat, st: SStmt, ret: Type, env: Env, s: Store): (r: Res<SFlow>)
    requires env != []
    ensures r.Ok? && r.val.SNext? ==> |r.val.env| == |env|
    decreases 2 * fuel, st, 1
  {
    match st
    case SBlock(body) =>
      var (flow, s1) :- MeanSeq(fp, p, fuel, body, ret, env + [map[]], s);
      Ok(if flow.SNext? then SNext(flow.env[..|env|]) else flow, s1)
    case SDecl(ty, x, init) =>
      (match init
       case None => Ok(SNext(Declare(env, x, Cell(ty, if ty.TDouble? then VDbl(0) else ZERO))), s)
       case Some(e) =>
         var (c, s1) :- MeanE(fp, p, fuel, e, env, s);
         Ok(SNext(Declare(env, x, Cell(ty, Convert(fp, c, ty)))), s1))
    case SDeclArray(elem, x, len) =>
      var (c, s1) :- MeanE(fp, p, fuel, len, env, s);
      var (ref, s2) :- NewArray(fp, Convert(fp, c, TInt), s1);
      Ok(SNext(Declare(env, x, Cell(ArrayOf(elem), ref))), s2)
    case SAssign(x, e) =>
      var k := ScopeOf(env, x);
      if k < 0 then Wrong
      else
        var (c, s1) :- MeanE(fp, p, fuel, e, env, s);
        var ty := env[k][x].ty;
        Ok(SNext(env[k := env[k][x := Cell(ty, Convert(fp, c, ty))]]), s1)
    case SAssignIndex(x, i, e) =>
      var k := ScopeOf(env, x);
      if k < 0 then Wrong
      else
        var (idx, s1) :- MeanE(fp, p, fuel, i, env, s);
        var (c, s2) :- MeanE(fp, p, fuel, e, env, s1);
        var (_, s3) :- Save(fp, env[k][x].v, Convert(fp, idx, TInt), Convert(fp, c, Elem(env[k][x].ty)), s2);
        Ok(SNext(env), s3)
    case SIf(c, thn, els) =>
      var (v, s1) :- MeanE(fp, p, fuel, c, env, s);
      if AsInt(fp, Convert(fp, v, TInt)) != 0 then MeanS(fp, p, fuel, thn, ret, env, s1)
      else (match els
            case None => Ok(SNext(env), s1)
            case Some(st2) => MeanS(fp, p, fuel, st2, ret, env, s1))
    case SWhile(c, body) =>
      var (v, s1) :- MeanE(fp, p, fuel, c, env, s);
      if AsInt(fp, Convert(fp, v, TInt)) == 0 then Ok(SNext(env), s1)
      else
        var (flow, s2) :- MeanS(fp, p, fuel, body, ret, env, s1);
        if flow.SRet? then Ok(flow, s2)
        else if fuel == 0 then Timeout
        else MeanS(fp, p, fuel - 1, st, ret, flow.env, s2)
    case SReturn(value) =>
      (match value
       case None => Ok(SRet(ZERO), s)
       case Some(e) =>
         var (c, s1) :- MeanE(fp, p, fuel, e, env, s);
         Ok(SRet(Convert(fp, c, ret)), s1))
    case SExprStmt(e) =>
      var (_, s1) :- MeanE(fp, p, fuel, e, env, s);
      Ok(SNext(env), s1)
    case SPrint(e) =>
      var (c, s1) :- MeanE(fp, p, fuel, e, env, s);
      Ok(SNext(env), s1.(out := s1.out + [Show(fp, c.v)]))
  }

  function MeanSeq(fp: Float, p: SProgram, fuel: nat, ss: seq<SStmt>, ret: Type, env: Env, s: Store): (r: Res<SFlow>)
    requires env != []
    ensures r.Ok? && r.val.SNext? ==> |r.val.env| == |env|
    decreases 2 * fuel, ss, 0
  {
    if ss == [] then Ok(SNext(env), s)
    else
      var (flow, s1) :- MeanS(fp, p, fuel, ss[0], ret, env, s);
      if flow.SRet? then Ok(flow, s1) else MeanSeq(fp, p, fuel, ss[1..], ret, flow.env, s1)
  }

  // ----- side condition -----

  predicate IsDecl(st: SStmt) { st.SDecl? || st.SDeclArray? }

  /** Declarations stand directly in blocks, never as the branch of an `if` or the body of a loop. */
  predicate DeclsInBlocks(st: SStmt) {
    match st
    case SBlock(body) => AllDeclsInBlocks(body)
    case SIf(_, thn, els) =>
      && !IsDecl(thn) && DeclsInBlocks(thn)
      && (els.Some? ==> !IsDecl(els.value) && DeclsInBlocks(els.value))
    case SWhile(_, body) => !IsDecl(body) && DeclsInBlocks(body)
    case _ => true
  }

  predicate AllDeclsInBlocks(ss: seq<SStmt>) {
    forall i :: 0 <= i < |ss| ==> DeclsInBlocks(ss[i])
  }

  predicate ProgramDeclsInBlocks(p: SProgram) {
    forall k :: 0 <= k < |p| ==> AllDeclsInBlocks(p[k].body)
  }
}
