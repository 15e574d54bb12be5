/** A declaration as the body of a loop: resolved and named scopes agree behind the loop exactly when the body was
    executed at all, unless the loop itself uses an outer variable of the same name. */
module BareLoops {
  import opened Values
  import opened Ast
  import opened Source
  import opened Surface
  import opened Elab
  import opened Resolve
  import opened BareBranches

  /** What the declaration evaluates does not use the name it declares. */
  predicate InitUses(st: SStmt, x: Name)
    requires IsDecl(st)
  {
    if st.SDecl? then st.init.Some? && Uses(st.init.value, x) else Uses(st.len, x)
  }

  /** One more execution of the declaration in scopes that already bind its name: the same slot is written. */
  lemma DeclAgain(fp: Float, p: SProgram, prog: Program, ok: set<nat>, fuel: nat, st: SStmt, ret: Type, env: Env,
                  g: Scopes, n: nat, l: seq<Val>, s: Store)
    requires IsDecl(st) && !InitUses(st, st.x)
    requires LinkedOn(p, prog, ok) && StmtCallsIn(SigsOf(p), ok, st) && g != [] && env != []
    requires ElabS(SigsOf(p), Some(ret), g, n, st).Done? && n < |l|
    requires var g1 := ElabS(SigsOf(p), Some(ret), g, n, st).v.g; Agree(env, g1, l) && Distinct(g1, n + 1)
    ensures var q := ElabS(SigsOf(p), Some(ret), g, n, st).v;
            SameFlow(MeanS(fp, p, fuel, st, ret, env, s), ExecS(fp, prog, fuel, q.st, l, s), q.g, |l|)
  {
    hide LinkedOn, Agree, Distinct, Source.EvalE, Surface.MeanE, ElabE, Coerce, Convert, Values.NewArray, With, Uses;
    var sigs, k, b := SigsOf(p), |g| - 1, Binding(DeclType(st), n);
    DeclBinds(sigs, Some(ret), g, n, st);
    var g1 := With(g, k, st.x, b);
    TopBinding(env, g, l, st.x, b);
    match st
    case SDecl(ty, x, None) =>
      AssignAgrees(env, g1, l, n + 1, k, x, if ty.TDouble? then VDbl(0) else ZERO);
    case SDecl(ty, x, Some(e)) =>
      ElabWith(sigs, g, k, x, b, e);
      ResolveE(fp, p, prog, ok, fuel, e, env, g1, l, s);
      EvalCoerce(fp, prog, fuel, ElabE(sigs, g, e).v, ty, l, s);
      var r := MeanE(fp, p, fuel, e, env, s);
      if r.Ok? { AssignAgrees(env, g1, l, n + 1, k, x, Convert(fp, r.val, ty)); }
    case SDeclArray(elem, x, e) =>
      ElabWith(sigs, g, k, x, b, e);
      ResolveE(fp, p, prog, ok, fuel, e, env, g1, l, s);
      EvalCoerce(fp, prog, fuel, ElabE(sigs, g, e).v, TInt, l, s);
      var r := MeanE(fp, p, fuel, e, env, s);
      if r.Ok? {
        var a := NewArray(fp, Convert(fp, r.val, TInt), r.store);
        if a.Ok? { AssignAgrees(env, g1, l, n + 1, k, x, a.val); }
      }
  }

  lemma TopBinding(env: Env, g: Scopes, l: seq<Val>, x: Name, b: Binding)
    requires g != [] && Agree(env, With(g, |g| - 1, x, b), l)
    ensures |env| == |g| && x in env[|g| - 1] && env[|g| - 1][x].ty == b.ty
    ensures x in With(g, |g| - 1, x, b)[|g| - 1] && With(g, |g| - 1, x, b)[|g| - 1][x] == b
  {
    var g1 := With(g, |g| - 1, x, b);
    assert SameScope(env[|g| - 1], g1[|g| - 1], l);
  }

  /** What the lemmas about such a loop assume of it, wherever it is entered. */
  ghost predicate BareLoop(p: SProgram, prog: Program, ok: set<nat>, st: SStmt, ret: Type, g: Scopes, n: nat) {
    && st.SWhile? && IsDecl(st.body1) && LinkedOn(p, prog, ok) && StmtCallsIn(SigsOf(p), ok, st)
    && g != [] && ElabS(SigsOf(p), Some(ret), g, n, st).Done?
    && !Uses(st.cond, st.body1.x) && !InitUses(st.body1, st.body1.x)
  }

  /** How the two forms of a loop unfold. */
  lemma LoopUnfolds(fp: Float, p: SProgram, prog: Program, fuel: nat, st: SStmt, ret: Type, env: Env, g: Scopes, n: nat,
                    l: seq<Val>, s: Store)
    requires st.SWhile? && g != [] && env != [] && ElabS(SigsOf(p), Some(ret), g, n, st).Done?
    requires var r := MeanE(fp, p, fuel, st.cond, env, s);
             EvalE(fp, prog, fuel, Coerce(ElabE(SigsOf(p), g, st.cond).v, TInt), l, s) ==
             if r.Ok? then Ok(Convert(fp, r.val, TInt), r.store) else r.PropagateFailure()
    ensures var sigs := SigsOf(p);
            var r := MeanE(fp, p, fuel, st.cond, env, s);
            var m := MeanS(fp, p, fuel, st, ret, env, s);
            var b := ElabS(sigs, Some(ret), g, n, st.body1);
            var q := ElabS(sigs, Some(ret), g, n, st).v;
            var x := ExecS(fp, prog, fuel, q.st, l, s);
            && b.Done? && q.g == b.v.g && q.n == b.v.n
            && (!r.Ok? ==> m == r.PropagateFailure() && x == r.PropagateFailure())
            && (Fails(fp, r) ==> m == Ok(SNext(env), r.store) && x == Ok(Next(l), r.store))
            && (Holds(fp, r) ==>
                  var m1 := MeanS(fp, p, fuel, st.body1, ret, env, r.store);
                  var x1 := ExecS(fp, prog, fuel, b.v.st, l, r.store);
                  && (m == if !m1.Ok? then m1.PropagateFailure()
                           else if m1.val.SRet? then m1
                           else if fuel == 0 then Timeout
                           else MeanS(fp, p, fuel - 1, st, ret, m1.val.env, m1.store))
                  && (x == if !x1.Ok? then x1.PropagateFailure()
                           else if x1.val.Ret? then x1
                           else if fuel == 0 then Timeout
                           else ExecS(fp, prog, fuel - 1, q.st, x1.val.locals, x1.store)))
  {
    hide Source.EvalE, Surface.MeanE, ElabE, Coerce, Convert;
  }

  /** From the second execution on, the loop runs alike in both. */
  lemma {:induction false} LoopGoesOn(fp: Float, p: SProgram, prog: Program, ok: set<nat>, fuel: nat, st: SStmt,
                                      ret: Type, env: Env, g: Scopes, n: nat, l: seq<Val>, s: Store)
    requires BareLoop(p, prog, ok, st, ret, g, n) && env != [] && n < |l|
    requires var q := ElabS(SigsOf(p), Some(ret), g, n, st).v; Agree(env, q.g, l) && Distinct(q.g, n + 1)
    ensures var q := ElabS(SigsOf(p), Some(ret), g, n, st).v;
            SameFlow(MeanS(fp, p, fuel, st, ret, env, s), ExecS(fp, prog, fuel, q.st, l, s), q.g, |l|)
    decreases fuel
  {
    hide ElabS, Surface.MeanS, Source.ExecS, Surface.MeanE, Source.EvalE, Agree, Distinct, LinkedOn, Uses, InitUses;
    var sigs, x := SigsOf(p), st.body1.x;
    LoopShape(sigs, Some(ret), g, n, st);
    var q, b := ElabS(sigs, Some(ret), g, n, st).v, ElabS(sigs, Some(ret), g, n, st.body1).v;
    DeclBinds(sigs, Some(ret), g, n, st.body1);
    ElabWith(sigs, g, |g| - 1, x, Binding(DeclType(st.body1), n), st.cond);
    ResolveCondition(fp, p, prog, ok, fuel, st.cond, env, q.g, l, s);
    LoopUnfolds(fp, p, prog, fuel, st, ret, env, g, n, l, s);
    var r := MeanE(fp, p, fuel, st.cond, env, s);
    if Holds(fp, r) {
      DeclAgain(fp, p, prog, ok, fuel, st.body1, ret, env, g, n, l, r.store);
      AfterDecl(fp, p, prog, fuel, st.body1, ret, env, l, r.store, q.g, b.st);
      var m1 := MeanS(fp, p, fuel, st.body1, ret, env, r.store);
      if m1.Ok? && fuel > 0 {
        var l1 := ExecS(fp, prog, fuel, b.st, l, r.store).val.locals;
        LoopGoesOn(fp, p, prog, ok, fuel - 1, st, ret, m1.val.env, g, n, l1, m1.store);
      }
    } else if Fails(fp, r) {
      GoesOnAsBefore(env, q.g, l, r.store);
    } else {
      FailuresAgree(r, q.g, l);
    }
  }

  lemma LoopShape(sigs: seq<Sig>, ret: Option<Type>, g: Scopes, n: nat, st: SStmt)
    requires st.SWhile? && g != [] && ElabS(sigs, ret, g, n, st).Done?
    ensures ElabE(sigs, g, st.cond).Done? && ElabS(sigs, ret, g, n, st.body1).Done?
    ensures var q, b := ElabS(sigs, ret, g, n, st).v, ElabS(sigs, ret, g, n, st.body1).v; q.g == b.g && q.n == b.n
  {
    hide ElabE;
  }

  /** A declaration goes on or fails; it never returns. */
  lemma AfterDecl(fp: Float, p: SProgram, prog: Program, fuel: nat, st: SStmt, ret: Type, env: Env, l: seq<Val>,
                  s: Store, g: Scopes, code: Stmt)
    requires IsDecl(st) && env != []
    requires SameFlow(MeanS(fp, p, fuel, st, ret, env, s), ExecS(fp, prog, fuel, code, l, s), g, |l|)
    ensures var m, x := MeanS(fp, p, fuel, st, ret, env, s), ExecS(fp, prog, fuel, code, l, s);
            if m.Ok? then
              && m.val.SNext? && m.val.env != [] && x.Ok? && x.val.Next? && x.store == m.store
              && Agree(m.val.env, g, x.val.locals) && |x.val.locals| == |l|
            else x == m.PropagateFailure()
  {
    hide Surface.MeanE, Agree, Source.ExecS;
  }

  /** `while (c) int x = e;`: behind the loop, and in every outcome, the scopes agree exactly when the condition
      did not fail the first time. */
  lemma LoopPartsWaysIff(fp: Float, p: SProgram, prog: Program, ok: set<nat>, fuel: nat, st: SStmt, ret: Type,
                         env: Env, g: Scopes, n: nat, l: seq<Val>, s: Store)
    requires Entered(p, prog, ok, st, ret, env, g, n, l) && BareLoop(p, prog, ok, st, ret, g, n)
    ensures PartWays(fp, p, prog, fuel, st, ret, env, g, n, l, s) <==> Fails(fp, MeanE(fp, p, fuel, st.cond, env, s))
  {
    hide ElabS, Surface.MeanS, Source.ExecS, Surface.MeanE, Source.EvalE, Agree, Distinct, LinkedOn, Uses, InitUses;
    var sigs, x := SigsOf(p), st.body1.x;
    LoopShape(sigs, Some(ret), g, n, st);
    var q, b := ElabS(sigs, Some(ret), g, n, st).v, ElabS(sigs, Some(ret), g, n, st.body1).v;
    DeclBinds(sigs, Some(ret), g, n, st.body1);
    ResolveCondition(fp, p, prog, ok, fuel, st.cond, env, g, l, s);
    LoopUnfolds(fp, p, prog, fuel, st, ret, env, g, n, l, s);
    var r := MeanE(fp, p, fuel, st.cond, env, s);
    if Holds(fp, r) {
      FirstExecution(fp, p, prog, ok, fuel, st.body1, ret, env, g, n, l, r.store);
      AfterDecl(fp, p, prog, fuel, st.body1, ret, env, l, r.store, q.g, b.st);
      var m1 := MeanS(fp, p, fuel, st.body1, ret, env, r.store);
      if m1.Ok? && fuel > 0 {
        var l1 := ExecS(fp, prog, fuel, b.st, l, r.store).val.locals;
        LoopGoesOn(fp, p, prog, ok, fuel - 1, st, ret, m1.val.env, g, n, l1, m1.store);
      }
    } else if Fails(fp, r) {
      SkippedLoop(fp, p, prog, ok, fuel, st, ret, env, g, n, l, s);
    } else {
      FailuresAgree(r, q.g, l);
    }
  }

  lemma FirstExecution(fp: Float, p: SProgram, prog: Program, ok: set<nat>, fuel: nat, st: SStmt, ret: Type, env: Env,
                       g: Scopes, n: nat, l: seq<Val>, s: Store)
    requires Entered(p, prog, ok, st, ret, env, g, n, l) && IsDecl(st)
    ensures var q := ElabS(SigsOf(p), Some(ret), g, n, st).v;
            && SameFlow(MeanS(fp, p, fuel, st, ret, env, s), ExecS(fp, prog, fuel, q.st, l, s), q.g, |l|)
            && Distinct(q.g, n + 1)
  {
    hide ElabS, Surface.MeanS, Source.ExecS, Agree, Distinct, LinkedOn;
    DeclBinds(SigsOf(p), Some(ret), g, n, st);
    SlotsDistinct(SigsOf(p), Some(ret), g, n, st);
    ResolveDecl(fp, p, prog, ok, fuel, st, ret, env, g, n, l, s);
  }

  /** Whatever names it uses, a loop that does not execute its declaration leaves it in scope. */
  lemma SkippedLoop(fp: Float, p: SProgram, prog: Program, ok: set<nat>, fuel: nat, st: SStmt, ret: Type, env: Env,
                    g: Scopes, n: nat, l: seq<Val>, s: Store)
    requires Entered(p, prog, ok, st, ret, env, g, n, l) && st.SWhile? && IsDecl(st.body1)
    requires Fails(fp, MeanE(fp, p, fuel, st.cond, env, s))
    ensures PartWays(fp, p, prog, fuel, st, ret, env, g, n, l, s)
  {
    hide ElabS, Surface.MeanS, Source.ExecS, Surface.MeanE, Source.EvalE, Agree, Distinct, LinkedOn;
    LoopShape(SigsOf(p), Some(ret), g, n, st);
    DeclBinds(SigsOf(p), Some(ret), g, n, st.body1);
    ResolveCondition(fp, p, prog, ok, fuel, st.cond, env, g, l, s);
    LoopUnfolds(fp, p, prog, fuel, st, ret, env, g, n, l, s);
    NameLacking(env, g, ElabS(SigsOf(p), Some(ret), g, n, st).v.g, l, st.body1.x);
  }

  lemma NameLacking(env: Env, g: Scopes, g1: Scopes, l: seq<Val>, x: Name)
    requires Agree(env, g, l) && g != [] && |g1| == |g| && x !in g[|g| - 1] && x in g1[|g| - 1]
    ensures !Agree(env, g1, l)
  {
    assert SameScope(env[|g| - 1], g[|g| - 1], l);
    NameMissing(env, g1, l, x);
  }
}
