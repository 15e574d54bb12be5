/** Declarations that are the branch of an `if` or the body of a loop.  The slot such a declaration names stays in
    scope behind the statement whether or not it was executed, so resolved and named scopes agree behind the
    statement exactly when it was. */
module BareBranches {
  import opened Values
  import opened Ast
  import opened Source
  import opened Surface
  import opened Elab
  import opened Resolve

  /** `x` occurs as a variable in `e`. */
  predicate Uses(e: SExpr, x: Name) {
    match e
    case SInt(_) => false
    case SDbl(_) => false
    case SVar(y) => y == x
    case SIndex(y, i) => y == x || Uses(i, x)
    case SNeg(a) => Uses(a, x)
    case SBin(_, a, b) => Uses(a, x) || Uses(b, x)
    case SCall(_, args) => exists i :: 0 <= i < |args| && Uses(args[i], x)
  }

  /** `x` is used, assigned or declared in `st`. */
  predicate Names(st: SStmt, x: Name) {
    match st
    case SBlock(body) => exists i :: 0 <= i < |body| && Names(body[i], x)
    case SDecl(_, y, init) => y == x || (init.Some? && Uses(init.value, x))
    case SDeclArray(_, y, len) => y == x || Uses(len, x)
    case SAssign(y, e) => y == x || Uses(e, x)
    case SAssignIndex(y, i, e) => y == x || Uses(i, x) || Uses(e, x)
    case SIf(c, thn, els) => Uses(c, x) || Names(thn, x) || (els.Some? && Names(els.value, x))
    case SWhile(c, body) => Uses(c, x) || Names(body, x)
    case SReturn(value) => value.Some? && Uses(value.value, x)
    case SExprStmt(e) => Uses(e, x)
    case SPrint(e) => Uses(e, x)
  }

  // ----- a binding of a name that does not occur changes nothing -----

  /** Scope `k` also binds `x`. */
  function With(g: Scopes, k: nat, x: Name, b: Binding): (r: Scopes)
    requires k < |g|
    ensures |r| == |g|
  {
    g[k := g[k][x := b]]
  }

  lemma {:induction false} LookupWith(g: Scopes, k: nat, x: Name, b: Binding, y: Name)
    requires k < |g| && y != x
    ensures Lookup(With(g, k, x, b), y) == Lookup(g, y)
  {
    var n := |g|;
    var g1 := With(g, k, x, b);
    if y !in g[n - 1] && n > 1 {
      if k == n - 1 {
        assert g1[..n - 1] == g[..n - 1];
      } else {
        assert g1[..n - 1] == With(g[..n - 1], k, x, b);
        LookupWith(g[..n - 1], k, x, b, y);
      }
    }
  }

  lemma {:induction false} ElabWith(sigs: seq<Sig>, g: Scopes, k: nat, x: Name, b: Binding, e: SExpr)
    requires k < |g| && !Uses(e, x)
    ensures ElabE(sigs, With(g, k, x, b), e) == ElabE(sigs, g, e)
    decreases e, 1
  {
    hide With, Lookup, Coerce;
    match e
    case SInt(_) =>
    case SDbl(_) =>
    case SVar(y) => LookupWith(g, k, x, b, y);
    case SIndex(y, i) =>
      LookupWith(g, k, x, b, y);
      ElabWith(sigs, g, k, x, b, i);
    case SNeg(a) => ElabWith(sigs, g, k, x, b, a);
    case SBin(_, a1, a2) =>
      ElabWith(sigs, g, k, x, b, a1);
      ElabWith(sigs, g, k, x, b, a2);
    case SCall(f, args) =>
      if FindSig(sigs, f) < |sigs| { ElabArgsWith(sigs, g, k, x, b, args, sigs[FindSig(sigs, f)].params); }
  }

  lemma {:induction false} ElabArgsWith(sigs: seq<Sig>, g: Scopes, k: nat, x: Name, b: Binding, es: seq<SExpr>,
                                        tys: seq<Type>)
    requires k < |g| && forall i :: 0 <= i < |es| ==> !Uses(es[i], x)
    ensures ElabArgs(sigs, With(g, k, x, b), es, tys) == ElabArgs(sigs, g, es, tys)
    decreases es, 0
  {
    hide With, ElabE, Coerce, Uses;
    if es != [] {
      ElabWith(sigs, g, k, x, b, es[0]);
      ElabArgsWith(sigs, g, k, x, b, es[1..], if tys == [] then [] else tys[1..]);
    }
  }

  /** The result with that binding still in place. */
  function PieceWith<T>(r: Elab<Piece<T>>, k: nat, x: Name, b: Binding): Elab<Piece<T>> {
    if r.Done? && k < |r.v.g| then Done(Piece(r.v.st, With(r.v.g, k, x, b), r.v.n)) else r
  }

  lemma BindWith(g: Scopes, k: nat, x: Name, b: Binding, y: Name, c: Binding)
    requires k < |g| && y != x
    ensures Bind(With(g, k, x, b), y, c) == With(Bind(g, y, c), k, x, b)
    ensures y in With(g, k, x, b)[|g| - 1] <==> y in g[|g| - 1]
  {
    assert k == |g| - 1 ==> g[k][x := b][y := c] == g[k][y := c][x := b];
  }

  lemma BlockWith(g: Scopes, k: nat, x: Name, b: Binding)
    requires k < |g|
    ensures With(g, k, x, b) + [map[]] == With(g + [map[]], k, x, b)
  {
  }

  lemma {:induction false} ElabStmtWith(sigs: seq<Sig>, ret: Option<Type>, g: Scopes, n: nat, k: nat, x: Name,
                                        b: Binding, st: SStmt)
    requires k < |g| && !Names(st, x)
    ensures ElabS(sigs, ret, With(g, k, x, b), n, st) == PieceWith(ElabS(sigs, ret, g, n, st), k, x, b)
    decreases st, 1
  {
    hide With, ElabE, Bind, Lookup, Uses, ElabSeq, Coerce;
    match st
    case SBlock(body) =>
      BlockWith(g, k, x, b);
      ElabSeqWith(sigs, ret, g + [map[]], n, k, x, b, body);
      var q := ElabSeq(sigs, ret, g + [map[]], n, body);
      if q.Done? { InnerDropped(q.v.g, |g|, k, x, b); }
    case SDecl(ty, y, init) =>
      if init.Some? { ElabWith(sigs, g, k, x, b, init.value); }
      BindWith(g, k, x, b, y, Binding(ty, n));
    case SDeclArray(elem, y, len) =>
      ElabWith(sigs, g, k, x, b, len);
      BindWith(g, k, x, b, y, Binding(ArrayOf(elem), n));
    case SAssign(y, e) =>
      LookupWith(g, k, x, b, y);
      ElabWith(sigs, g, k, x, b, e);
    case SAssignIndex(y, i, e) =>
      LookupWith(g, k, x, b, y);
      ElabWith(sigs, g, k, x, b, i);
      ElabWith(sigs, g, k, x, b, e);
    case SIf(c, thn, els) =>
      ElabWith(sigs, g, k, x, b, c);
      ElabStmtWith(sigs, ret, g, n, k, x, b, thn);
      var t := ElabS(sigs, ret, g, n, thn);
      if t.Done? && els.Some? { ElabStmtWith(sigs, ret, t.v.g, t.v.n, k, x, b, els.value); }
    case SWhile(c, body) =>
      ElabWith(sigs, g, k, x, b, c);
      ElabStmtWith(sigs, ret, g, n, k, x, b, body);
    case SReturn(value) =>
      if value.Some? { ElabWith(sigs, g, k, x, b, value.value); }
    case SExprStmt(e) => ElabWith(sigs, g, k, x, b, e);
    case SPrint(e) => ElabWith(sigs, g, k, x, b, e);
  }

  lemma InnerDropped(g: Scopes, m: nat, k: nat, x: Name, b: Binding)
    requires k < m <= |g|
    ensures With(g, k, x, b)[..m] == With(g[..m], k, x, b)
  {
  }

  lemma {:induction false} ElabSeqWith(sigs: seq<Sig>, ret: Option<Type>, g: Scopes, n: nat, k: nat, x: Name,
                                       b: Binding, ss: seq<SStmt>)
    requires k < |g| && forall i :: 0 <= i < |ss| ==> !Names(ss[i], x)
    ensures ElabSeq(sigs, ret, With(g, k, x, b), n, ss) == PieceWith(ElabSeq(sigs, ret, g, n, ss), k, x, b)
    decreases ss, 0
  {
    hide With, ElabS, Names;
    if ss != [] {
      ElabStmtWith(sigs, ret, g, n, k, x, b, ss[0]);
      var q := ElabS(sigs, ret, g, n, ss[0]);
      if q.Done? { ElabSeqWith(sigs, ret, q.v.g, q.v.n, k, x, b, ss[1..]); }
    }
  }

  // ----- if -----

  /** A statement of an accepted program about to be executed, in scopes and a frame that agree.  The functions it
      may call, directly or not, have their declarations in blocks; the function it stands in need not. */
  ghost predicate Entered(p: SProgram, prog: Program, ok: set<nat>, st: SStmt, ret: Type, env: Env, g: Scopes, n: nat,
                          l: seq<Val>)
  {
    && LinkedOn(p, prog, ok) && StmtCallsIn(SigsOf(p), ok, st)
    && Agree(env, g, l) && g != [] && env != [] && Distinct(g, n)
    && ElabS(SigsOf(p), Some(ret), g, n, st).Done? && ElabS(SigsOf(p), Some(ret), g, n, st).v.n <= |l|
  }

  /** Named and resolved scopes part ways in this statement or behind it. */
  ghost predicate PartWays(fp: Float, p: SProgram, prog: Program, fuel: nat, st: SStmt, ret: Type, env: Env, g: Scopes,
                           n: nat, l: seq<Val>, s: Store)
    requires env != [] && g != [] && ElabS(SigsOf(p), Some(ret), g, n, st).Done?
  {
    var q := ElabS(SigsOf(p), Some(ret), g, n, st).v;
    !SameFlow(MeanS(fp, p, fuel, st, ret, env, s), ExecS(fp, prog, fuel, q.st, l, s), q.g, |l|)
  }

  /** The condition evaluates, to something other than zero or to zero. */
  predicate Holds(fp: Float, r: Res<Cell>) { r.Ok? && AsInt(fp, Convert(fp, r.val, TInt)) != 0 }

  predicate Fails(fp: Float, r: Res<Cell>) { r.Ok? && AsInt(fp, Convert(fp, r.val, TInt)) == 0 }

  predicate GoesOn(r: Res<SFlow>) { r.Ok? && r.val.SNext? }

  /** Scopes with a name the environment does not have agree with no frame. */
  lemma NameMissing(env: Env, g: Scopes, l: seq<Val>, x: Name)
    requires g != [] && x in g[|g| - 1] && (|env| == |g| ==> x !in env[|g| - 1])
    ensures !Agree(env, g, l)
  {
    assert |env| == |g| ==> !SameScope(env[|g| - 1], g[|g| - 1], l);
  }

  function DeclType(st: SStmt): Type
    requires IsDecl(st)
  {
    if st.SDecl? then st.ty else ArrayOf(st.elem)
  }

  /** An accepted declaration binds a new name to the next slot. */
  lemma DeclBinds(sigs: seq<Sig>, ret: Option<Type>, g: Scopes, n: nat, st: SStmt)
    requires g != [] && IsDecl(st) && ElabS(sigs, ret, g, n, st).Done?
    ensures var q := ElabS(sigs, ret, g, n, st).v;
            q.g == With(g, |g| - 1, st.x, Binding(DeclType(st), n)) && q.n == n + 1
    ensures st.x !in g[|g| - 1]
  {
    hide ElabE, Coerce;
  }

  /** A name a statement does not declare is not in its scopes afterwards. */
  lemma StillMissing(sigs: seq<Sig>, ret: Option<Type>, g: Scopes, n: nat, st: SStmt, x: Name)
    requires g != [] && ElabS(sigs, ret, g, n, st).Done? && DeclsInBlocks(st) && !Names(st, x) && x !in g[|g| - 1]
    ensures x !in ElabS(sigs, ret, g, n, st).v.g[|g| - 1]
  {
    hide ElabS, Uses;
    if IsDecl(st) { DeclBinds(sigs, ret, g, n, st); } else { ScopesRestored(sigs, ret, g, n, st); }
  }

  /** How the two forms of an `if` unfold. */
  lemma IfUnfolds(fp: Float, p: SProgram, prog: Program, ok: set<nat>, fuel: nat, st: SStmt, ret: Type, env: Env,
                  g: Scopes, n: nat, l: seq<Val>, s: Store)
    requires Entered(p, prog, ok, st, ret, env, g, n, l) && st.SIf?
    ensures var sigs := SigsOf(p);
            var r := MeanE(fp, p, fuel, st.cond, env, s);
            var m := MeanS(fp, p, fuel, st, ret, env, s);
            var q := ElabS(sigs, Some(ret), g, n, st).v;
            var x := ExecS(fp, prog, fuel, q.st, l, s);
            var t := ElabS(sigs, Some(ret), g, n, st.thn);
            && t.Done? && t.v.n <= q.n
            && (!r.Ok? ==> m == r.PropagateFailure() && x == r.PropagateFailure())
            && (Holds(fp, r) ==> m == MeanS(fp, p, fuel, st.thn, ret, env, r.store)
                                 && x == ExecS(fp, prog, fuel, t.v.st, l, r.store))
            && (st.els == None ==> q.g == t.v.g && q.n == t.v.n)
            && (st.els == None && Fails(fp, r) ==> m == Ok(SNext(env), r.store) && x == Ok(Next(l), r.store))
            && (st.els.Some? ==>
                  var f := ElabS(sigs, Some(ret), t.v.g, t.v.n, st.els.value);
                  && f.Done? && q.g == f.v.g && q.n == f.v.n
                  && (Fails(fp, r) ==> m == MeanS(fp, p, fuel, st.els.value, ret, env, r.store)
                                       && x == ExecS(fp, prog, fuel, f.v.st, l, r.store)))
  {
    hide Agree, Distinct, LinkedOn, Source.EvalE, Surface.MeanE, ElabE, Coerce, Convert;
    ResolveCondition(fp, p, prog, ok, fuel, st.cond, env, g, l, s);
  }

  lemma ResolveCondition(fp: Float, p: SProgram, prog: Program, ok: set<nat>, fuel: nat, c: SExpr, env: Env,
                         g: Scopes, l: seq<Val>, s: Store)
    requires LinkedOn(p, prog, ok) && CallsIn(SigsOf(p), ok, c) && Agree(env, g, l) && ElabE(SigsOf(p), g, c).Done?
    ensures var r := MeanE(fp, p, fuel, c, env, s);
            EvalE(fp, prog, fuel, Coerce(ElabE(SigsOf(p), g, c).v, TInt), l, s) ==
            if r.Ok? then Ok(Convert(fp, r.val, TInt), r.store) else r.PropagateFailure()
  {
    hide LinkedOn, Agree, Source.EvalE, Surface.MeanE, ElabE, Coerce, Convert;
    ResolveE(fp, p, prog, ok, fuel, c, env, g, l, s);
    EvalCoerce(fp, prog, fuel, ElabE(SigsOf(p), g, c).v, TInt, l, s);
  }

  /** The branch that is skipped is a declaration. */
  predicate SkipsDecl(fp: Float, r: Res<Cell>, st: SStmt)
    requires st.SIf?
  {
    || (Holds(fp, r) && st.els.Some? && IsDecl(st.els.value))
    || (Fails(fp, r) && IsDecl(st.thn))
  }

  /** An `if` whose branches may be declarations: named and resolved scopes part ways exactly when a declaration
      is skipped and the program goes on behind the `if`.  The `else` branch must not use the name that the first
      branch declares: it would mean that declaration's slot. */
  lemma IfPartsWaysIff(fp: Float, p: SProgram, prog: Program, ok: set<nat>, fuel: nat, st: SStmt, ret: Type, env: Env,
                       g: Scopes, n: nat, l: seq<Val>, s: Store)
    requires Entered(p, prog, ok, st, ret, env, g, n, l)
    requires st.SIf? && DeclsInBlocks(st.thn) && (st.els.Some? ==> DeclsInBlocks(st.els.value))
    requires IsDecl(st.thn) && st.els.Some? ==> !Names(st.els.value, st.thn.x)
    ensures PartWays(fp, p, prog, fuel, st, ret, env, g, n, l, s) <==>
            && SkipsDecl(fp, MeanE(fp, p, fuel, st.cond, env, s), st)
            && GoesOn(MeanS(fp, p, fuel, st, ret, env, s))
  {
    hide ElabS, Surface.MeanS, Source.ExecS, Surface.MeanE, Agree, SameFlow, Names, DeclsInBlocks;
    IfUnfolds(fp, p, prog, ok, fuel, st, ret, env, g, n, l, s);
    var r := MeanE(fp, p, fuel, st.cond, env, s);
    if Holds(fp, r) {
      TakesFirst(fp, p, prog, ok, fuel, st, ret, env, g, n, l, s);
    } else if Fails(fp, r) {
      TakesSecond(fp, p, prog, ok, fuel, st, ret, env, g, n, l, s);
    } else {
      FailuresAgree(r, ElabS(SigsOf(p), Some(ret), g, n, st).v.g, l);
    }
  }

  lemma FailuresAgree(r: Res<Cell>, g: Scopes, l: seq<Val>)
    requires !r.Ok?
    ensures SameFlow(r.PropagateFailure(), r.PropagateFailure(), g, |l|)
  {
  }

  /** Statements that agree in some scopes agree in others as long as they do not go on. */
  lemma AgreeIfStopped(r: Res<SFlow>, q: Res<Flow>, g: Scopes, g1: Scopes, len: nat)
    requires SameFlow(r, q, g, len) && !GoesOn(r)
    ensures SameFlow(r, q, g1, len)
  {
  }

  lemma PartIfMissing(r: Res<SFlow>, q: Res<Flow>, g: Scopes, g1: Scopes, len: nat, x: Name)
    requires SameFlow(r, q, g, len) && GoesOn(r)
    requires g != [] && |g1| == |g| && x !in g[|g| - 1] && x in g1[|g| - 1]
    ensures !SameFlow(r, q, g1, len)
  {
    var env := r.val.env;
    assert SameScope(env[|g| - 1], g[|g| - 1], q.val.locals);
    NameMissing(env, g1, q.val.locals, x);
  }

  lemma TakesFirst(fp: Float, p: SProgram, prog: Program, ok: set<nat>, fuel: nat, st: SStmt, ret: Type, env: Env,
                   g: Scopes, n: nat, l: seq<Val>, s: Store)
    requires Entered(p, prog, ok, st, ret, env, g, n, l)
    requires st.SIf? && Holds(fp, MeanE(fp, p, fuel, st.cond, env, s))
    requires DeclsInBlocks(st.thn) && (st.els.Some? ==> DeclsInBlocks(st.els.value))
    ensures PartWays(fp, p, prog, fuel, st, ret, env, g, n, l, s) <==>
            st.els.Some? && IsDecl(st.els.value) && GoesOn(MeanS(fp, p, fuel, st, ret, env, s))
  {
    hide ElabS, Surface.MeanS, Source.ExecS, Surface.MeanE, Agree, SameFlow, DeclsInBlocks, Distinct, LinkedOn;
    IfUnfolds(fp, p, prog, ok, fuel, st, ret, env, g, n, l, s);
    var sigs, r := SigsOf(p), MeanE(fp, p, fuel, st.cond, env, s);
    ResolveS(fp, p, prog, ok, fuel, st.thn, ret, env, g, n, l, r.store);
    var t, q := ElabS(sigs, Some(ret), g, n, st.thn).v, ElabS(sigs, Some(ret), g, n, st).v;
    var m, e := MeanS(fp, p, fuel, st, ret, env, s), ExecS(fp, prog, fuel, q.st, l, s);
    if st.els.Some? {
      if IsDecl(st.els.value) {
        DeclBinds(sigs, Some(ret), t.g, t.n, st.els.value);
        if GoesOn(m) {
          PartIfMissing(m, e, t.g, q.g, |l|, st.els.value.x);
        } else {
          AgreeIfStopped(m, e, t.g, q.g, |l|);
        }
      } else {
        ScopesRestored(sigs, Some(ret), t.g, t.n, st.els.value);
      }
    }
  }

  lemma TakesSecond(fp: Float, p: SProgram, prog: Program, ok: set<nat>, fuel: nat, st: SStmt, ret: Type, env: Env,
                    g: Scopes, n: nat, l: seq<Val>, s: Store)
    requires Entered(p, prog, ok, st, ret, env, g, n, l)
    requires st.SIf? && Fails(fp, MeanE(fp, p, fuel, st.cond, env, s))
    requires DeclsInBlocks(st.thn) && (st.els.Some? ==> DeclsInBlocks(st.els.value))
    requires IsDecl(st.thn) && st.els.Some? ==> !Names(st.els.value, st.thn.x)
    ensures PartWays(fp, p, prog, fuel, st, ret, env, g, n, l, s) <==>
            IsDecl(st.thn) && GoesOn(MeanS(fp, p, fuel, st, ret, env, s))
  {
    hide ElabS, Surface.MeanS, Source.ExecS, Surface.MeanE, Agree, SameFlow, DeclsInBlocks, Distinct, LinkedOn, Names;
    IfUnfolds(fp, p, prog, ok, fuel, st, ret, env, g, n, l, s);
    var sigs, r := SigsOf(p), MeanE(fp, p, fuel, st.cond, env, s);
    var t, q := ElabS(sigs, Some(ret), g, n, st.thn).v, ElabS(sigs, Some(ret), g, n, st).v;
    var m, e := MeanS(fp, p, fuel, st, ret, env, s), ExecS(fp, prog, fuel, q.st, l, s);
    DistinctLonger(g, n, t.n);
    var x := if IsDecl(st.thn) then st.thn.x else "";
    if IsDecl(st.thn) {
      DeclBinds(sigs, Some(ret), g, n, st.thn);
    } else {
      ScopesRestored(sigs, Some(ret), g, n, st.thn);
    }
    if st.els == None {
      GoesOnAsBefore(env, g, l, r.store);
      if IsDecl(st.thn) { PartIfMissing(m, e, g, q.g, |l|, x); }
    } else if IsDecl(st.thn) {
      ElabStmtWith(sigs, Some(ret), g, t.n, |g| - 1, x, Binding(DeclType(st.thn), n), st.els.value);
      var f := ElabS(sigs, Some(ret), g, t.n, st.els.value).v;
      ResolveS(fp, p, prog, ok, fuel, st.els.value, ret, env, g, t.n, l, r.store);
      if GoesOn(m) {
        StillMissing(sigs, Some(ret), g, t.n, st.els.value, x);
        PartIfMissing(m, e, f.g, q.g, |l|, x);
      } else {
        AgreeIfStopped(m, e, f.g, q.g, |l|);
      }
    } else {
      ResolveS(fp, p, prog, ok, fuel, st.els.value, ret, env, g, t.n, l, r.store);
    }
  }

  lemma GoesOnAsBefore(env: Env, g: Scopes, l: seq<Val>, s: Store)
    requires Agree(env, g, l)
    ensures SameFlow(Ok(SNext(env), s), Ok(Next(l), s), g, |l|)
  {
  }

  /** `if (c) int x;`: the scopes agree behind it exactly when the condition holds, if it has a value at all. */
  lemma BareIfIff(fp: Float, p: SProgram, prog: Program, ok: set<nat>, fuel: nat, st: SStmt, ret: Type, env: Env,
                  g: Scopes, n: nat, l: seq<Val>, s: Store)
    requires Entered(p, prog, ok, st, ret, env, g, n, l)
    requires st.SIf? && IsDecl(st.thn) && st.els == None
    ensures PartWays(fp, p, prog, fuel, st, ret, env, g, n, l, s) <==> Fails(fp, MeanE(fp, p, fuel, st.cond, env, s))
  {
    hide ElabS, Surface.MeanS, Source.ExecS, Surface.MeanE, Entered, PartWays;
    IfPartsWaysIff(fp, p, prog, ok, fuel, st, ret, env, g, n, l, s);
    IfUnfolds(fp, p, prog, ok, fuel, st, ret, env, g, n, l, s);
  }
}
