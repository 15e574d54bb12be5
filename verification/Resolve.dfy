/** Resolving names to slots preserves meaning: evaluating with nested named scopes is evaluating the
    elaborated tree on a flat frame. */
module Resolve {
  import opened Values
  import opened Ast
  import opened Source
  import opened Surface
  import opened Elab

  /** The frame holds what the named scopes hold. */
  ghost predicate Agree(env: Env, g: Scopes, l: seq<Val>) {
    && |env| == |g|
    && forall i :: 0 <= i < |g| ==> SameScope(env[i], g[i], l)
  }

  ghost predicate SameScope(names: map<Name, Cell>, scope: map<Name, Binding>, l: seq<Val>) {
    && names.Keys == scope.Keys
    && forall x :: x in scope ==> scope[x].slot < |l| && names[x] == Cell(scope[x].ty, l[scope[x].slot])
  }

  /** Live declarations have distinct slots, all handed out already. */
  ghost predicate Distinct(g: Scopes, n: nat) {
    && (forall i, x :: 0 <= i < |g| && x in g[i] ==> g[i][x].slot < n)
    && (forall i, x, j, y :: 0 <= i < |g| && 0 <= j < |g| && x in g[i] && y in g[j] && g[i][x].slot == g[j][y].slot
                             ==> i == j && x == y)
  }

  lemma {:induction false} SameScopeOf(env: Env, g: Scopes, l: seq<Val>, x: Name)
    requires Agree(env, g, l)
    ensures ScopeOf(env, x) == ScopeOf(g, x)
    ensures var k := ScopeOf(g, x); k >= 0 ==> g[k][x].slot < |l| && env[k][x] == Cell(g[k][x].ty, l[g[k][x].slot])
  {
    var n := |g|;
    if n > 0 {
      assert SameScope(env[n - 1], g[n - 1], l);
      if x !in g[n - 1] { SameScopeOf(env[..n - 1], g[..n - 1], l, x); }
    }
  }

  /** What a typed result says about an untyped one. */
  ghost predicate SameRes(r: Res<Cell>, q: Res<Val>, ty: Type) {
    if r.Ok? then q == Ok(r.val.v, r.store) && r.val.ty == ty else q == r.PropagateFailure()
  }

  ghost predicate SameFlow(r: Res<SFlow>, q: Res<Flow>, g: Scopes, len: nat) {
    match r
    case Ok(SNext(env), s) => q.Ok? && q.store == s && q.val.Next? && |q.val.locals| == len
        && Agree(env, g, q.val.locals)
    case Ok(SRet(v), s) => q == Ok(Ret(v), s)
    case _ => q == r.PropagateFailure()
  }

  // ----- which functions are called -----

  /** Every function that `e` calls is in `ok`. */
  predicate CallsIn(sigs: seq<Sig>, ok: set<nat>, e: SExpr) {
    match e
    case SInt(_) => true
    case SDbl(_) => true
    case SVar(_) => true
    case SIndex(_, i) => CallsIn(sigs, ok, i)
    case SNeg(a) => CallsIn(sigs, ok, a)
    case SBin(_, a, b) => CallsIn(sigs, ok, a) && CallsIn(sigs, ok, b)
    case SCall(f, args) => FindSig(sigs, f) in ok && AllCallIn(sigs, ok, args)
  }

  predicate AllCallIn(sigs: seq<Sig>, ok: set<nat>, es: seq<SExpr>) {
    forall i :: 0 <= i < |es| ==> CallsIn(sigs, ok, es[i])
  }

  predicate StmtCallsIn(sigs: seq<Sig>, ok: set<nat>, st: SStmt) {
    match st
    case SBlock(body) => BodyCallsIn(sigs, ok, body)
    case SDecl(_, _, init) => init.Some? ==> CallsIn(sigs, ok, init.value)
    case SDeclArray(_, _, len) => CallsIn(sigs, ok, len)
    case SAssign(_, e) => CallsIn(sigs, ok, e)
    case SAssignIndex(_, i, e) => CallsIn(sigs, ok, i) && CallsIn(sigs, ok, e)
    case SIf(c, thn, els) =>
      && CallsIn(sigs, ok, c) && StmtCallsIn(sigs, ok, thn)
      && (els.Some? ==> StmtCallsIn(sigs, ok, els.value))
    case SWhile(c, body) => CallsIn(sigs, ok, c) && StmtCallsIn(sigs, ok, body)
    case SReturn(value) => value.Some? ==> CallsIn(sigs, ok, value.value)
    case SExprStmt(e) => CallsIn(sigs, ok, e)
    case SPrint(e) => CallsIn(sigs, ok, e)
  }

  predicate BodyCallsIn(sigs: seq<Sig>, ok: set<nat>, ss: seq<SStmt>) {
    forall i :: 0 <= i < |ss| ==> StmtCallsIn(sigs, ok, ss[i])
  }

  /** The program is accepted; the functions in `ok` have their declarations in blocks, and call only each other.
      Nothing is asked of the other functions. */
  ghost predicate LinkedOn(p: SProgram, prog: Program, ok: set<nat>) {
    && ElabProgram(p) == Done(prog)
    && forall k :: k in ok ==> k < |p| && AllDeclsInBlocks(p[k].body) && BodyCallsIn(SigsOf(p), ok, p[k].body)
  }

  /** The program is accepted, and all its functions have their declarations in blocks. */
  ghost predicate Linked(p: SProgram, prog: Program) {
    ElabProgram(p) == Done(prog) && ProgramDeclsInBlocks(p)
  }

  function AllFunctions(p: SProgram): set<nat> { set k {:trigger p[k]} | 0 <= k < |p| }

  lemma {:induction false} AcceptedCalls(sigs: seq<Sig>, ok: set<nat>, g: Scopes, e: SExpr)
    requires ElabE(sigs, g, e).Done? && forall k :: 0 <= k < |sigs| ==> k in ok
    ensures CallsIn(sigs, ok, e)
    decreases e, 1
  {
    hide Lookup, Coerce;
    match e
    case SIndex(_, i) => AcceptedCalls(sigs, ok, g, i);
    case SNeg(a) => AcceptedCalls(sigs, ok, g, a);
    case SBin(_, a, b) =>
      AcceptedCalls(sigs, ok, g, a);
      AcceptedCalls(sigs, ok, g, b);
    case SCall(f, args) => AcceptedArgs(sigs, ok, g, args, sigs[FindSig(sigs, f)].params);
    case _ =>
  }

  lemma {:induction false} AcceptedArgs(sigs: seq<Sig>, ok: set<nat>, g: Scopes, es: seq<SExpr>, tys: seq<Type>)
    requires ElabArgs(sigs, g, es, tys).Done? && forall k :: 0 <= k < |sigs| ==> k in ok
    ensures AllCallIn(sigs, ok, es)
    decreases es, 0
  {
    hide ElabE, Coerce, CallsIn;
    if es != [] {
      AcceptedCalls(sigs, ok, g, es[0]);
      AcceptedArgs(sigs, ok, g, es[1..], if tys == [] then [] else tys[1..]);
      assert forall i :: 0 < i < |es| ==> es[i] == es[1..][i - 1];
    }
  }

  lemma {:induction false} AcceptedStmt(sigs: seq<Sig>, ok: set<nat>, ret: Option<Type>, g: Scopes, n: nat, st: SStmt)
    requires g != [] && ElabS(sigs, ret, g, n, st).Done? && forall k :: 0 <= k < |sigs| ==> k in ok
    ensures StmtCallsIn(sigs, ok, st)
    decreases st, 1
  {
    hide ElabE, CallsIn, Lookup, Coerce, ElabSeq;
    match st
    case SBlock(body) => AcceptedSeq(sigs, ok, ret, g + [map[]], n, body);
    case SDecl(_, _, init) => if init.Some? { AcceptedCalls(sigs, ok, g, init.value); }
    case SDeclArray(_, _, len) => AcceptedCalls(sigs, ok, g, len);
    case SAssign(_, e) => AcceptedCalls(sigs, ok, g, e);
    case SAssignIndex(_, i, e) =>
      AcceptedCalls(sigs, ok, g, i);
      AcceptedCalls(sigs, ok, g, e);
    case SIf(c, thn, els) =>
      AcceptedCalls(sigs, ok, g, c);
      AcceptedStmt(sigs, ok, ret, g, n, thn);
      var t := ElabS(sigs, ret, g, n, thn).v;
      if els.Some? { AcceptedStmt(sigs, ok, ret, t.g, t.n, els.value); }
    case SWhile(c, body) =>
      AcceptedCalls(sigs, ok, g, c);
      AcceptedStmt(sigs, ok, ret, g, n, body);
    case SReturn(value) => if value.Some? { AcceptedCalls(sigs, ok, g, value.value); }
    case SExprStmt(e) => AcceptedCalls(sigs, ok, g, e);
    case SPrint(e) => AcceptedCalls(sigs, ok, g, e);
  }

  lemma {:induction false} AcceptedSeq(sigs: seq<Sig>, ok: set<nat>, ret: Option<Type>, g: Scopes, n: nat,
                                       ss: seq<SStmt>)
    requires g != [] && ElabSeq(sigs, ret, g, n, ss).Done? && forall k :: 0 <= k < |sigs| ==> k in ok
    ensures BodyCallsIn(sigs, ok, ss)
    decreases ss, 0
  {
    hide ElabS, StmtCallsIn;
    if ss != [] {
      AcceptedStmt(sigs, ok, ret, g, n, ss[0]);
      var q := ElabS(sigs, ret, g, n, ss[0]).v;
      AcceptedSeq(sigs, ok, ret, q.g, q.n, ss[1..]);
      assert forall i :: 0 < i < |ss| ==> ss[i] == ss[1..][i - 1];
    }
  }

  /** With all declarations in blocks, nothing is asked of the calls. */
  lemma LinkedEverywhere(p: SProgram, prog: Program)
    requires Linked(p, prog)
    ensures LinkedOn(p, prog, AllFunctions(p))
  {
    hide ElabS, AllDeclsInBlocks, BodyCallsIn;
    var sigs := SigsOf(p);
    forall k: nat | k < |p| ensures BodyCallsIn(sigs, AllFunctions(p), p[k].body) {
      assert ElabFunc(sigs, p[k]).Done?;
      var np := |p[k].params|;
      var g := [ElabParams(p[k].params, np).v];
      BlockAccepted(sigs, Some(p[k].ret), g, np, p[k].body);
      AcceptedSeq(sigs, AllFunctions(p), Some(p[k].ret), g + [map[]], np, p[k].body);
    }
  }

  lemma BlockAccepted(sigs: seq<Sig>, ret: Option<Type>, g: Scopes, n: nat, body: seq<SStmt>)
    requires g != [] && ElabS(sigs, ret, g, n, SBlock(body)).Done?
    ensures ElabSeq(sigs, ret, g + [map[]], n, body).Done?
  {
    hide ElabSeq;
  }

  /** A coerced operand has the converted value. */
  lemma EvalCoerce(fp: Float, prog: Program, fuel: nat, e: Expr, target: Type, l: seq<Val>, s: Store)
    ensures var r := EvalE(fp, prog, fuel, e, l, s);
            EvalE(fp, prog, fuel, Coerce(e, target), l, s) ==
            if r.Ok? then Ok(Convert(fp, Cell(TypeOf(e), r.val), target), r.store) else r
  {
    hide Source.Invoke, Source.EvalArgs;
  }

  lemma {:induction false} ResolveE(fp: Float, p: SProgram, prog: Program, ok: set<nat>, fuel: nat, e: SExpr,
                                    env: Env, g: Scopes, l: seq<Val>, s: Store)
    requires LinkedOn(p, prog, ok) && Agree(env, g, l)
    requires CallsIn(SigsOf(p), ok, e) && ElabE(SigsOf(p), g, e).Done?
    ensures var e1 := ElabE(SigsOf(p), g, e).v;
            SameRes(MeanE(fp, p, fuel, e, env, s), EvalE(fp, prog, fuel, e1, l, s), TypeOf(e1))
    decreases 2 * fuel, e, 1
  {
    hide LinkedOn, Agree, Source.Invoke, Surface.MeanCall;
    var sigs := SigsOf(p);
    match e
    case SInt(_) =>
    case SDbl(_) =>
    case SVar(x) => SameScopeOf(env, g, l, x);
    case SIndex(x, i) => ResolveIndex(fp, p, prog, ok, fuel, e, env, g, l, s);
    case SNeg(a) => ResolveE(fp, p, prog, ok, fuel, a, env, g, l, s);
    case SBin(op, a, b) => ResolveBin(fp, p, prog, ok, fuel, e, env, g, l, s);
    case SCall(f, args) => ResolveCall(fp, p, prog, ok, fuel, e, env, g, l, s);
  }

  lemma {:induction false} ResolveIndex(fp: Float, p: SProgram, prog: Program, ok: set<nat>, fuel: nat, e: SExpr,
                                        env: Env, g: Scopes, l: seq<Val>, s: Store)
    requires LinkedOn(p, prog, ok) && Agree(env, g, l)
    requires e.SIndex? && CallsIn(SigsOf(p), ok, e) && ElabE(SigsOf(p), g, e).Done?
    ensures var e1 := ElabE(SigsOf(p), g, e).v;
            SameRes(MeanE(fp, p, fuel, e, env, s), EvalE(fp, prog, fuel, e1, l, s), TypeOf(e1))
    decreases 2 * fuel, e, 0
  {
    hide LinkedOn, Agree, Source.Invoke, Surface.MeanCall, Coerce, Convert;
    SameScopeOf(env, g, l, e.x);
    ResolveE(fp, p, prog, ok, fuel, e.idx, env, g, l, s);
    EvalCoerce(fp, prog, fuel, ElabE(SigsOf(p), g, e.idx).v, TInt, l, s);
  }

  lemma {:induction false} ResolveBin(fp: Float, p: SProgram, prog: Program, ok: set<nat>, fuel: nat, e: SExpr,
                                      env: Env, g: Scopes, l: seq<Val>, s: Store)
    requires LinkedOn(p, prog, ok) && Agree(env, g, l)
    requires e.SBin? && CallsIn(SigsOf(p), ok, e) && ElabE(SigsOf(p), g, e).Done?
    ensures var e1 := ElabE(SigsOf(p), g, e).v;
            SameRes(MeanE(fp, p, fuel, e, env, s), EvalE(fp, prog, fuel, e1, l, s), TypeOf(e1))
    decreases 2 * fuel, e, 0
  {
    hide LinkedOn, Agree, Source.Invoke, Surface.MeanCall, Coerce, Convert;
    var a1, b1 := ElabE(SigsOf(p), g, e.a).v, ElabE(SigsOf(p), g, e.b).v;
    var common := Common(TypeOf(a1), TypeOf(b1));
    ResolveE(fp, p, prog, ok, fuel, e.a, env, g, l, s);
    EvalCoerce(fp, prog, fuel, a1, common, l, s);
    var r := EvalE(fp, prog, fuel, a1, l, s);
    if r.Ok? {
      ResolveE(fp, p, prog, ok, fuel, e.b, env, g, l, r.store);
      EvalCoerce(fp, prog, fuel, b1, common, l, r.store);
    }
  }

  lemma {:induction false} ResolveCall(fp: Float, p: SProgram, prog: Program, ok: set<nat>, fuel: nat, e: SExpr,
                                       env: Env, g: Scopes, l: seq<Val>, s: Store)
    requires LinkedOn(p, prog, ok) && Agree(env, g, l)
    requires e.SCall? && CallsIn(SigsOf(p), ok, e) && ElabE(SigsOf(p), g, e).Done?
    ensures var e1 := ElabE(SigsOf(p), g, e).v;
            SameRes(MeanE(fp, p, fuel, e, env, s), EvalE(fp, prog, fuel, e1, l, s), TypeOf(e1))
    decreases 2 * fuel, e, 0
  {
    hide LinkedOn, Agree, Source.Invoke, Surface.MeanCall;
    var k := FindSig(SigsOf(p), e.f);
    var tys := SigsOf(p)[k].params;
    ResolveArgs(fp, p, prog, ok, fuel, e.args, tys, env, g, l, s);
    var r := MeanArgs(fp, p, fuel, e.args, tys, env, s);
    if r.Ok? && fuel > 0 { ResolveInvoke(fp, p, prog, ok, fuel - 1, k, r.val, r.store); }
  }

  lemma {:induction false} ResolveArgs(fp: Float, p: SProgram, prog: Program, ok: set<nat>, fuel: nat, es: seq<SExpr>,
                                       tys: seq<Type>, env: Env, g: Scopes, l: seq<Val>, s: Store)
    requires LinkedOn(p, prog, ok) && Agree(env, g, l)
    requires AllCallIn(SigsOf(p), ok, es) && ElabArgs(SigsOf(p), g, es, tys).Done?
    ensures EvalArgs(fp, prog, fuel, ElabArgs(SigsOf(p), g, es, tys).v, l, s) == MeanArgs(fp, p, fuel, es, tys, env, s)
    decreases 2 * fuel, es, 0
  {
    hide LinkedOn, Agree, Source.EvalE, Surface.MeanE, ElabE, Coerce, Convert;
    if es != [] {
      var e1 := ElabE(SigsOf(p), g, es[0]).v;
      ResolveE(fp, p, prog, ok, fuel, es[0], env, g, l, s);
      if tys != [] { EvalCoerce(fp, prog, fuel, e1, tys[0], l, s); }
      var r := EvalE(fp, prog, fuel, e1, l, s);
      if r.Ok? { ResolveArgs(fp, p, prog, ok, fuel, es[1..], if tys == [] then [] else tys[1..], env, g, l, r.store); }
    }
  }

  // ----- parameters -----

  /** Parameters have distinct slots below their number. */
  lemma {:induction false} ParamSlots(params: seq<Param>, n: nat)
    requires n <= |params| && ElabParams(params, n).Done?
    ensures forall x :: x in ElabParams(params, n).v ==> ElabParams(params, n).v[x].slot < n
    ensures Distinct([ElabParams(params, n).v], n)
  {
    if n > 0 {
      hide Distinct;
      ParamSlots(params, n - 1);
      var scope := ElabParams(params, n - 1).v;
      var x, b := params[n - 1].x, Binding(params[n - 1].ty, n - 1);
      BindKeepsDistinct([scope], n - 1, x, b.ty);
      assert Bind([scope], x, b) == [scope[x := b]];
    }
  }

  lemma {:induction false} ParamsAgree(params: seq<Param>, n: nat, args: seq<Val>, l: seq<Val>)
    requires n <= |params| && ElabParams(params, n).Done?
    requires n <= |l| && forall i :: 0 <= i < n ==> l[i] == if i < |args| then args[i] else ZERO
    ensures SameScope(ParamScope(params, args, n), ElabParams(params, n).v, l)
    ensures forall x :: x in ElabParams(params, n).v ==> ElabParams(params, n).v[x].slot < n
    ensures Distinct([ElabParams(params, n).v], n)
  {
    hide Distinct;
    ParamSlots(params, n);
    if n > 0 {
      ParamsAgree(params, n - 1, args, l);
      OneMoreParam(ParamScope(params, args, n - 1), ElabParams(params, n - 1).v, l, params[n - 1].x,
                   Binding(params[n - 1].ty, n - 1));
    }
  }

  lemma OneMoreParam(names: map<Name, Cell>, scope: map<Name, Binding>, l: seq<Val>, x: Name, b: Binding)
    requires SameScope(names, scope, l) && b.slot < |l|
    ensures SameScope(names[x := Cell(b.ty, l[b.slot])], scope[x := b], l)
  {
  }

  lemma LinkedFunc(p: SProgram, prog: Program, ok: set<nat>, k: nat)
    requires LinkedOn(p, prog, ok) && k in ok
    ensures k < |p| == |prog| && ElabFunc(SigsOf(p), p[k]) == Done(prog[k])
    ensures AllDeclsInBlocks(p[k].body) && BodyCallsIn(SigsOf(p), ok, p[k].body)
  {
  }

  lemma {:induction false} ResolveInvoke(fp: Float, p: SProgram, prog: Program, ok: set<nat>, fuel: nat, k: nat,
                                         args: seq<Val>, s: Store)
    requires LinkedOn(p, prog, ok) && k in ok
    ensures k < |p| && Invoke(fp, prog, fuel, k, args, s) == MeanCall(fp, p, fuel, k, args, s)
    decreases 2 * fuel + 1
  {
    hide LinkedOn, Source.ExecS, Surface.MeanS, ElabS;
    LinkedFunc(p, prog, ok, k);
    var f := p[k];
    var np := |f.params|;
    var scope := ElabParams(f.params, np).v;
    var body := ElabS(SigsOf(p), Some(f.ret), [scope], np, SBlock(f.body)).v;
    var l := Frame(body.n, args);
    ParamsAgree(f.params, np, args, l);
    var env := [ParamScope(f.params, args, np)];
    assert Agree(env, [scope], l);
    ResolveS(fp, p, prog, ok, fuel, SBlock(f.body), f.ret, env, [scope], np, l, s);
  }

  // ----- statements -----

  /** Statements other than declarations leave the scopes as they were. */
  lemma {:induction false} ScopesRestored(sigs: seq<Sig>, ret: Option<Type>, g: Scopes, n: nat, st: SStmt)
    requires g != [] && ElabS(sigs, ret, g, n, st).Done? && !IsDecl(st) && DeclsInBlocks(st)
    ensures ElabS(sigs, ret, g, n, st).v.g == g
    decreases st, 1
  {
    match st
    case SBlock(body) =>
      OuterScopesKept(sigs, ret, g + [map[]], n, body);
      var q := ElabSeq(sigs, ret, g + [map[]], n, body).v;
      assert q.g[..|g|] == (g + [map[]])[..|g|] == g;
    case SIf(c, thn, els) =>
      ScopesRestored(sigs, ret, g, n, thn);
      if els.Some? { ScopesRestored(sigs, ret, g, ElabS(sigs, ret, g, n, thn).v.n, els.value); }
    case SWhile(c, body) => ScopesRestored(sigs, ret, g, n, body);
    case _ =>
  }

  lemma {:induction false} OuterScopesKept(sigs: seq<Sig>, ret: Option<Type>, g: Scopes, n: nat, ss: seq<SStmt>)
    requires g != [] && ElabSeq(sigs, ret, g, n, ss).Done? && AllDeclsInBlocks(ss)
    ensures ElabSeq(sigs, ret, g, n, ss).v.g[..|g| - 1] == g[..|g| - 1]
    decreases ss, 0
  {
    if ss != [] {
      var q := ElabS(sigs, ret, g, n, ss[0]).v;
      if !IsDecl(ss[0]) { ScopesRestored(sigs, ret, g, n, ss[0]); }
      OuterScopesKept(sigs, ret, q.g, q.n, ss[1..]);
    }
  }

  /** A fresh slot for a fresh name. */
  lemma BindKeepsDistinct(g: Scopes, n: nat, x: Name, ty: Type)
    requires g != [] && Distinct(g, n) && x !in g[|g| - 1]
    ensures Distinct(Bind(g, x, Binding(ty, n)), n + 1)
  {
    var g1: Scopes := Bind(g, x, Binding(ty, n));
    forall i: nat, y: Name, j: nat, z: Name
      | i < |g| && j < |g| && y in g1[i] && z in g1[j] && g1[i][y].slot == g1[j][z].slot
      ensures i == j && y == z
    {
      if y in g[i] && z in g[j] {
        assert g1[i][y] == g[i][y] && g1[j][z] == g[j][z];
      }
    }
  }

  lemma DistinctLonger(g: Scopes, n: nat, m: nat)
    requires Distinct(g, n) && n <= m
    ensures Distinct(g, m) && Distinct(g + [map[]], m)
    ensures g != [] ==> Distinct(g[..|g| - 1], m)
  {
  }

  lemma {:induction false} SlotsDistinct(sigs: seq<Sig>, ret: Option<Type>, g: Scopes, n: nat, st: SStmt)
    requires g != [] && ElabS(sigs, ret, g, n, st).Done? && Distinct(g, n)
    ensures var q := ElabS(sigs, ret, g, n, st).v; Distinct(q.g, q.n)
    decreases st, 1
  {
    hide Distinct, ElabE;
    match st
    case SBlock(body) =>
      DistinctLonger(g, n, n);
      SlotsDistinctSeq(sigs, ret, g + [map[]], n, body);
      var q := ElabSeq(sigs, ret, g + [map[]], n, body).v;
      DistinctLonger(q.g, q.n, q.n);
      assert q.g[..|q.g| - 1] == q.g[..|g|];
    case SDecl(ty, x, _) => BindKeepsDistinct(g, n, x, ty);
    case SDeclArray(elem, x, _) => BindKeepsDistinct(g, n, x, ArrayOf(elem));
    case SIf(c, thn, els) =>
      SlotsDistinct(sigs, ret, g, n, thn);
      if els.Some? {
        var t := ElabS(sigs, ret, g, n, thn).v;
        SlotsDistinct(sigs, ret, t.g, t.n, els.value);
      }
    case SWhile(c, body) => SlotsDistinct(sigs, ret, g, n, body);
    case _ =>
  }

  lemma {:induction false} SlotsDistinctSeq(sigs: seq<Sig>, ret: Option<Type>, g: Scopes, n: nat, ss: seq<SStmt>)
    requires g != [] && ElabSeq(sigs, ret, g, n, ss).Done? && Distinct(g, n)
    ensures var q := ElabSeq(sigs, ret, g, n, ss).v; Distinct(q.g, q.n)
    decreases ss, 0
  {
    hide Distinct, ElabS;
    if ss != [] {
      SlotsDistinct(sigs, ret, g, n, ss[0]);
      var q := ElabS(sigs, ret, g, n, ss[0]).v;
      SlotsDistinctSeq(sigs, ret, q.g, q.n, ss[1..]);
    }
  }

  /** Declaring a name: a new cell in the innermost scope, a write to its fresh slot. */
  lemma DeclareAgrees(env: Env, g: Scopes, l: seq<Val>, n: nat, x: Name, ty: Type, v: Val)
    requires Agree(env, g, l) && g != [] && Distinct(g, n) && n < |l|
    ensures Agree(Declare(env, x, Cell(ty, v)), Bind(g, x, Binding(ty, n)), l[n := v])
  {
    var e1, g1, l1 := Declare(env, x, Cell(ty, v)), Bind(g, x, Binding(ty, n)), l[n := v];
    forall i | 0 <= i < |g| ensures SameScope(e1[i], g1[i], l1) {
      assert SameScope(env[i], g[i], l);
    }
  }

  /** Assigning to a name: its cell in the scope that declares it, its slot in the frame. */
  lemma AssignAgrees(env: Env, g: Scopes, l: seq<Val>, n: nat, k: nat, x: Name, v: Val)
    requires Agree(env, g, l) && Distinct(g, n) && k < |g| && x in g[k] && x in env[k]
    requires g[k][x].slot < |l|
    ensures Agree(env[k := env[k][x := Cell(env[k][x].ty, v)]], g, l[g[k][x].slot := v])
  {
    var slot := g[k][x].slot;
    var e1, l1 := env[k := env[k][x := Cell(env[k][x].ty, v)]], l[slot := v];
    assert SameScope(env[k], g[k], l);
    forall i | 0 <= i < |g| ensures SameScope(e1[i], g[i], l1) {
      assert SameScope(env[i], g[i], l);
    }
  }

  /** What every lemma about one statement assumes. */
  ghost predicate Situation(p: SProgram, prog: Program, ok: set<nat>, st: SStmt, ret: Type, env: Env, g: Scopes, n: nat,
                            l: seq<Val>)
  {
    && LinkedOn(p, prog, ok) && Agree(env, g, l) && g != [] && env != [] && Distinct(g, n)
    && DeclsInBlocks(st) && StmtCallsIn(SigsOf(p), ok, st)
    && ElabS(SigsOf(p), Some(ret), g, n, st).Done? && ElabS(SigsOf(p), Some(ret), g, n, st).v.n <= |l|
  }

  lemma {:induction false} ResolveS(fp: Float, p: SProgram, prog: Program, ok: set<nat>, fuel: nat, st: SStmt,
                                    ret: Type, env: Env, g: Scopes, n: nat, l: seq<Val>, s: Store)
    requires Situation(p, prog, ok, st, ret, env, g, n, l)
    ensures var q := ElabS(SigsOf(p), Some(ret), g, n, st).v;
            SameFlow(MeanS(fp, p, fuel, st, ret, env, s), ExecS(fp, prog, fuel, q.st, l, s), q.g, |l|)
    decreases 2 * fuel, st, 2
  {
    hide Source.ExecS, Surface.MeanS, ElabS, Situation, SameFlow;
    match st
    case SBlock(_) => ResolveBlock(fp, p, prog, ok, fuel, st, ret, env, g, n, l, s);
    case SIf(_, _, _) => ResolveIf(fp, p, prog, ok, fuel, st, ret, env, g, n, l, s);
    case SWhile(_, _) => ResolveWhile(fp, p, prog, ok, fuel, st, ret, env, g, n, l, s);
    case SDecl(_, _, _) => ResolveDecl(fp, p, prog, ok, fuel, st, ret, env, g, n, l, s);
    case SDeclArray(_, _, _) => ResolveDecl(fp, p, prog, ok, fuel, st, ret, env, g, n, l, s);
    case _ => ResolveSimple(fp, p, prog, ok, fuel, st, ret, env, g, n, l, s);
  }

  lemma {:induction false} ResolveBlock(fp: Float, p: SProgram, prog: Program, ok: set<nat>, fuel: nat, st: SStmt,
                                        ret: Type, env: Env, g: Scopes, n: nat, l: seq<Val>, s: Store)
    requires Situation(p, prog, ok, st, ret, env, g, n, l) && st.SBlock?
    ensures var q := ElabS(SigsOf(p), Some(ret), g, n, st).v;
            SameFlow(MeanS(fp, p, fuel, st, ret, env, s), ExecS(fp, prog, fuel, q.st, l, s), q.g, |l|)
    decreases 2 * fuel, st, 1
  {
    hide LinkedOn, Distinct, Source.ExecSeq, Surface.MeanSeq, ElabSeq;
    DistinctLonger(g, n, n);
    assert SameScope(map[], map[], l);
    ResolveSeq(fp, p, prog, ok, fuel, st.body, ret, env + [map[]], g + [map[]], n, l, s);
  }

  lemma {:induction false} ResolveSeq(fp: Float, p: SProgram, prog: Program, ok: set<nat>, fuel: nat, ss: seq<SStmt>,
                                      ret: Type, env: Env, g: Scopes, n: nat, l: seq<Val>, s: Store)
    requires LinkedOn(p, prog, ok) && Agree(env, g, l) && g != [] && env != [] && Distinct(g, n)
    requires AllDeclsInBlocks(ss) && BodyCallsIn(SigsOf(p), ok, ss)
    requires ElabSeq(SigsOf(p), Some(ret), g, n, ss).Done? && ElabSeq(SigsOf(p), Some(ret), g, n, ss).v.n <= |l|
    ensures var q := ElabSeq(SigsOf(p), Some(ret), g, n, ss).v;
            SameFlow(MeanSeq(fp, p, fuel, ss, ret, env, s), ExecSeq(fp, prog, fuel, q.st, l, s), q.g, |l|)
    decreases 2 * fuel, ss, 0
  {
    hide LinkedOn, Agree, Distinct, Source.ExecS, Surface.MeanS, ElabS;
    if ss != [] {
      var q := ElabS(SigsOf(p), Some(ret), g, n, ss[0]).v;
      SlotsDistinct(SigsOf(p), Some(ret), g, n, ss[0]);
      ResolveS(fp, p, prog, ok, fuel, ss[0], ret, env, g, n, l, s);
      var r := MeanS(fp, p, fuel, ss[0], ret, env, s);
      if r.Ok? && r.val.SNext? {
        var l1 := ExecS(fp, prog, fuel, q.st, l, s).val.locals;
        ResolveSeq(fp, p, prog, ok, fuel, ss[1..], ret, r.val.env, q.g, q.n, l1, r.store);
      }
    }
  }

  lemma {:induction false} ResolveDecl(fp: Float, p: SProgram, prog: Program, ok: set<nat>, fuel: nat, st: SStmt,
                                       ret: Type, env: Env, g: Scopes, n: nat, l: seq<Val>, s: Store)
    requires Situation(p, prog, ok, st, ret, env, g, n, l) && IsDecl(st)
    ensures var q := ElabS(SigsOf(p), Some(ret), g, n, st).v;
            SameFlow(MeanS(fp, p, fuel, st, ret, env, s), ExecS(fp, prog, fuel, q.st, l, s), q.g, |l|)
    decreases 2 * fuel, st, 1
  {
    hide LinkedOn, Agree, Distinct, Source.EvalE, Surface.MeanE, ElabE, Coerce, Convert, Values.NewArray;
    match st
    case SDecl(ty, x, None) => DeclareAgrees(env, g, l, n, x, ty, if ty.TDouble? then VDbl(0) else ZERO);
    case SDecl(ty, x, Some(e)) =>
      ResolveE(fp, p, prog, ok, fuel, e, env, g, l, s);
      EvalCoerce(fp, prog, fuel, ElabE(SigsOf(p), g, e).v, ty, l, s);
      var r := MeanE(fp, p, fuel, e, env, s);
      if r.Ok? { DeclareAgrees(env, g, l, n, x, ty, Convert(fp, r.val, ty)); }
    case SDeclArray(elem, x, e) =>
      ResolveE(fp, p, prog, ok, fuel, e, env, g, l, s);
      EvalCoerce(fp, prog, fuel, ElabE(SigsOf(p), g, e).v, TInt, l, s);
      var r := MeanE(fp, p, fuel, e, env, s);
      if r.Ok? {
        var a := NewArray(fp, Convert(fp, r.val, TInt), r.store);
        if a.Ok? { DeclareAgrees(env, g, l, n, x, ArrayOf(elem), a.val); }
      }
  }

  lemma {:induction false} ResolveSimple(fp: Float, p: SProgram, prog: Program, ok: set<nat>, fuel: nat, st: SStmt,
                                         ret: Type, env: Env, g: Scopes, n: nat, l: seq<Val>, s: Store)
    requires Situation(p, prog, ok, st, ret, env, g, n, l)
    requires st.SAssign? || st.SAssignIndex? || st.SReturn? || st.SExprStmt? || st.SPrint?
    ensures var q := ElabS(SigsOf(p), Some(ret), g, n, st).v;
            SameFlow(MeanS(fp, p, fuel, st, ret, env, s), ExecS(fp, prog, fuel, q.st, l, s), q.g, |l|)
    decreases 2 * fuel, st, 1
  {
    hide LinkedOn, Agree, Distinct, Source.EvalE, Surface.MeanE, ElabE, Coerce, Convert;
    var sigs := SigsOf(p);
    match st
    case SAssign(x, e) =>
      SameScopeOf(env, g, l, x);
      ResolveE(fp, p, prog, ok, fuel, e, env, g, l, s);
      var k := ScopeOf(g, x);
      EvalCoerce(fp, prog, fuel, ElabE(sigs, g, e).v, g[k][x].ty, l, s);
      var r := MeanE(fp, p, fuel, e, env, s);
      if r.Ok? { AssignAgrees(env, g, l, n, k, x, Convert(fp, r.val, g[k][x].ty)); }
    case SAssignIndex(x, i, e) => ResolveAssignIndex(fp, p, prog, ok, fuel, st, ret, env, g, n, l, s);
    case SReturn(value) =>
      if value.Some? {
        ResolveE(fp, p, prog, ok, fuel, value.value, env, g, l, s);
        EvalCoerce(fp, prog, fuel, ElabE(sigs, g, value.value).v, ret, l, s);
      }
    case SExprStmt(e) => ResolveE(fp, p, prog, ok, fuel, e, env, g, l, s);
    case SPrint(e) => ResolveE(fp, p, prog, ok, fuel, e, env, g, l, s);
  }

  lemma {:induction false} ResolveAssignIndex(fp: Float, p: SProgram, prog: Program, ok: set<nat>, fuel: nat,
                                              st: SStmt, ret: Type, env: Env, g: Scopes, n: nat, l: seq<Val>,
                                              s: Store)
    requires Situation(p, prog, ok, st, ret, env, g, n, l) && st.SAssignIndex?
    ensures var q := ElabS(SigsOf(p), Some(ret), g, n, st).v;
            SameFlow(MeanS(fp, p, fuel, st, ret, env, s), ExecS(fp, prog, fuel, q.st, l, s), q.g, |l|)
    decreases 2 * fuel, st, 0
  {
    hide LinkedOn, Agree, Distinct, Surface.MeanE, ElabE, Coerce, Convert, Source.Invoke, Values.Save;
    var x, i, e := st.x, st.idx, st.e;
    SameScopeOf(env, g, l, x);
    var k := ScopeOf(g, x);
    var i1, e1 := ElabE(SigsOf(p), g, i).v, ElabE(SigsOf(p), g, e).v;
    ResolveE(fp, p, prog, ok, fuel, i, env, g, l, s);
    EvalCoerce(fp, prog, fuel, i1, TInt, l, s);
    var r := MeanE(fp, p, fuel, i, env, s);
    if r.Ok? {
      ResolveE(fp, p, prog, ok, fuel, e, env, g, l, r.store);
      EvalCoerce(fp, prog, fuel, e1, Elem(g[k][x].ty), l, r.store);
    }
  }

  lemma {:induction false} ResolveIf(fp: Float, p: SProgram, prog: Program, ok: set<nat>, fuel: nat, st: SStmt,
                                     ret: Type, env: Env, g: Scopes, n: nat, l: seq<Val>, s: Store)
    requires Situation(p, prog, ok, st, ret, env, g, n, l) && st.SIf?
    ensures var q := ElabS(SigsOf(p), Some(ret), g, n, st).v;
            SameFlow(MeanS(fp, p, fuel, st, ret, env, s), ExecS(fp, prog, fuel, q.st, l, s), q.g, |l|)
    decreases 2 * fuel, st, 1
  {
    hide LinkedOn, Agree, Distinct, Source.EvalE, Surface.MeanE, ElabE, Coerce, Convert;
    var sigs := SigsOf(p);
    ResolveE(fp, p, prog, ok, fuel, st.cond, env, g, l, s);
    EvalCoerce(fp, prog, fuel, ElabE(sigs, g, st.cond).v, TInt, l, s);
    ScopesRestored(sigs, Some(ret), g, n, st.thn);
    var t := ElabS(sigs, Some(ret), g, n, st.thn).v;
    var r := MeanE(fp, p, fuel, st.cond, env, s);
    SlotsDistinct(sigs, Some(ret), g, n, st.thn);
    if st.els.Some? { ScopesRestored(sigs, Some(ret), g, t.n, st.els.value); }
    if r.Ok? {
      ResolveS(fp, p, prog, ok, fuel, st.thn, ret, env, g, n, l, r.store);
      if st.els.Some? { ResolveS(fp, p, prog, ok, fuel, st.els.value, ret, env, g, t.n, l, r.store); }
    }
  }

  lemma {:induction false} ResolveWhile(fp: Float, p: SProgram, prog: Program, ok: set<nat>, fuel: nat, st: SStmt,
                                        ret: Type, env: Env, g: Scopes, n: nat, l: seq<Val>, s: Store)
    requires Situation(p, prog, ok, st, ret, env, g, n, l) && st.SWhile?
    ensures var q := ElabS(SigsOf(p), Some(ret), g, n, st).v;
            SameFlow(MeanS(fp, p, fuel, st, ret, env, s), ExecS(fp, prog, fuel, q.st, l, s), q.g, |l|)
    decreases 2 * fuel, st, 1
  {
    hide LinkedOn, Agree, Distinct, Source.EvalE, Surface.MeanE, ElabE, Coerce, Convert;
    var sigs := SigsOf(p);
    ResolveE(fp, p, prog, ok, fuel, st.cond, env, g, l, s);
    EvalCoerce(fp, prog, fuel, ElabE(sigs, g, st.cond).v, TInt, l, s);
    ScopesRestored(sigs, Some(ret), g, n, st.body1);
    var r := MeanE(fp, p, fuel, st.cond, env, s);
    if r.Ok? && AsInt(fp, Convert(fp, r.val, TInt)) != 0 {
      ResolveS(fp, p, prog, ok, fuel, st.body1, ret, env, g, n, l, r.store);
      var r2 := MeanS(fp, p, fuel, st.body1, ret, env, r.store);
      if r2.Ok? && r2.val.SNext? && fuel > 0 {
        var b := ElabS(sigs, Some(ret), g, n, st.body1).v;
        var l1 := ExecS(fp, prog, fuel, b.st, l, r.store).val.locals;
        ResolveS(fp, p, prog, ok, fuel - 1, st, ret, r2.val.env, g, n, l1, r2.store);
      }
    }
  }
}
