/** Which names a source program may use: the declared ones.  This is what a tree has to satisfy for the parser not
    to report an undeclared name, and apart from redeclarations it is all that elaboration asks. */
module Declared {
  import opened Values
  import opened Ast
  import opened Surface
  import opened Elab

  /** The names of the open scopes, outermost first. */
  type Open = seq<set<Name>>

  predicate InScope(open: Open, x: Name) { exists i :: 0 <= i < |open| && x in open[i] }

  /** A name joins the innermost scope. */
  function WithName(open: Open, x: Name): (r: Open)
    ensures |r| == |open|
  {
    if open == [] then open else open[|open| - 1 := open[|open| - 1] + {x}]
  }

  function Pushed(open: Open): Open { open + [{}] }

  function Popped(open: Open): Open { if open == [] then open else open[..|open| - 1] }

  /** Every variable used is in scope, and every function called has a header. */
  predicate UsesDeclared(sigs: seq<Sig>, open: Open, e: SExpr) {
    match e
    case SInt(_) => true
    case SDbl(_) => true
    case SVar(x) => InScope(open, x)
    case SIndex(x, i) => InScope(open, x) && UsesDeclared(sigs, open, i)
    case SNeg(a) => UsesDeclared(sigs, open, a)
    case SBin(_, a, b) => UsesDeclared(sigs, open, a) && UsesDeclared(sigs, open, b)
    case SCall(f, args) =>
      FindSig(sigs, f) < |sigs| && forall i :: 0 <= i < |args| ==> UsesDeclared(sigs, open, args[i])
  }

  predicate AllUseDeclared(sigs: seq<Sig>, open: Open, es: seq<SExpr>) {
    forall i :: 0 <= i < |es| ==> UsesDeclared(sigs, open, es[i])
  }

  /** The scopes behind a statement, if all names it uses are declared where it uses them. */
  function Scoped(sigs: seq<Sig>, open: Open, st: SStmt): (r: Option<Open>)
    ensures r.Some? ==> |r.value| == |open|
    decreases st, 1
  {
    match st
    case SBlock(body) =>
      var r := ScopedSeq(sigs, Pushed(open), body);
      if r.None? then None else Some(Popped(r.value))
    case SDecl(_, x, init) =>
      if init.Some? && !UsesDeclared(sigs, open, init.value) then None else Some(WithName(open, x))
    case SDeclArray(_, x, len) => if UsesDeclared(sigs, open, len) then Some(WithName(open, x)) else None
    case SAssign(x, e) => if InScope(open, x) && UsesDeclared(sigs, open, e) then Some(open) else None
    case SAssignIndex(x, i, e) =>
      if InScope(open, x) && UsesDeclared(sigs, open, i) && UsesDeclared(sigs, open, e) then Some(open) else None
    case SIf(c, thn, els) =>
      if !UsesDeclared(sigs, open, c) then None
      else
        var t := Scoped(sigs, open, thn);
        if t.None? || els.None? then t else Scoped(sigs, t.value, els.value)
    case SWhile(c, body) => if UsesDeclared(sigs, open, c) then Scoped(sigs, open, body) else None
    case SReturn(value) => if value.Some? && !UsesDeclared(sigs, open, value.value) then None else Some(open)
    case SExprStmt(e) => if UsesDeclared(sigs, open, e) then Some(open) else None
    case SPrint(e) => if UsesDeclared(sigs, open, e) then Some(open) else None
  }

  function ScopedSeq(sigs: seq<Sig>, open: Open, ss: seq<SStmt>): (r: Option<Open>)
    ensures r.Some? ==> |r.value| == |open|
    decreases ss, 0
  {
    if ss == [] then Some(open)
    else
      var r := Scoped(sigs, open, ss[0]);
      if r.None? then r else ScopedSeq(sigs, r.value, ss[1..])
  }

  /** The scope of the first `n` parameters. */
  function ParamNames(params: seq<Param>, n: nat): set<Name>
    requires n <= |params|
  {
    set i | 0 <= i < n :: params[i].x
  }

  predicate FuncScoped(sigs: seq<Sig>, f: SFunc) {
    ScopedSeq(sigs, [ParamNames(f.params, |f.params|), {}], f.body).Some?
  }

  predicate AllScoped(sigs: seq<Sig>, p: SProgram) {
    forall k :: 0 <= k < |p| ==> FuncScoped(sigs, p[k])
  }

  // ----- against elaboration -----

  function NamesOf(g: Scopes): Open { seq(|g|, i requires 0 <= i < |g| => g[i].Keys) }

  lemma {:induction false} InScopeIff(g: Scopes, x: Name)
    ensures InScope(NamesOf(g), x) <==> ScopeOf(g, x) >= 0
  {
    var k := ScopeOf(g, x);
    if k >= 0 { assert x in NamesOf(g)[k]; }
  }

  /** An expression is rejected exactly when it uses an undeclared name. */
  lemma {:induction false} ElabEIff(sigs: seq<Sig>, g: Scopes, e: SExpr)
    ensures UsesDeclared(sigs, NamesOf(g), e) <==> ElabE(sigs, g, e).Done?
    ensures !ElabE(sigs, g, e).Redeclared?
    decreases e, 1
  {
    hide InScope, NamesOf, Coerce, MakeBinop;
    match e
    case SInt(_) =>
    case SDbl(_) =>
    case SVar(x) => InScopeIff(g, x);
    case SIndex(x, i) =>
      InScopeIff(g, x);
      ElabEIff(sigs, g, i);
    case SNeg(a) => ElabEIff(sigs, g, a);
    case SBin(_, a, b) =>
      ElabEIff(sigs, g, a);
      ElabEIff(sigs, g, b);
    case SCall(f, args) =>
      if FindSig(sigs, f) < |sigs| { ElabArgsIff(sigs, g, args, sigs[FindSig(sigs, f)].params); }
  }

  lemma {:induction false} ElabArgsIff(sigs: seq<Sig>, g: Scopes, es: seq<SExpr>, tys: seq<Type>)
    ensures AllUseDeclared(sigs, NamesOf(g), es) <==> ElabArgs(sigs, g, es, tys).Done?
    ensures !ElabArgs(sigs, g, es, tys).Redeclared?
    decreases es, 0
  {
    hide ElabE, UsesDeclared, NamesOf, Coerce;
    if es != [] {
      ElabEIff(sigs, g, es[0]);
      ElabArgsIff(sigs, g, es[1..], if tys == [] then [] else tys[1..]);
      assert es == [es[0]] + es[1..];
    }
  }

  /** Accepted means that all names are declared, rejected that one is not. */
  ghost predicate SameNames<T(!new)>(r: Elab<Piece<T>>, open: Option<Open>) {
    match r
    case Done(q) => open == Some(NamesOf(q.g))
    case Rejected => open == None
    case Redeclared => true
  }

  lemma NamesOfBind(g: Scopes, x: Name, b: Binding)
    requires g != []
    ensures NamesOf(Bind(g, x, b)) == WithName(NamesOf(g), x)
    ensures NamesOf(g + [map[]]) == Pushed(NamesOf(g))
    ensures NamesOf(g[..|g| - 1]) == Popped(NamesOf(g))
  {
    assert g[|g| - 1][x := b].Keys == g[|g| - 1].Keys + {x};
    var none: map<Name, Binding> := map[];
    assert none.Keys == {};
    assert NamesOf(g + [none]) == Pushed(NamesOf(g));
  }

  lemma {:induction false} ElabSIff(sigs: seq<Sig>, ret: Option<Type>, g: Scopes, n: nat, st: SStmt)
    requires g != []
    ensures SameNames(ElabS(sigs, ret, g, n, st), Scoped(sigs, NamesOf(g), st))
    decreases st, 1
  {
    hide ElabE, UsesDeclared, NamesOf, InScope, WithName, Pushed, Popped, Bind, Coerce, ElabSeq, ScopedSeq;
    match st
    case SBlock(body) => ElabBlockIff(sigs, ret, g, n, body);
    case SDecl(ty, x, init) =>
      if init.Some? { ElabEIff(sigs, g, init.value); }
      NamesOfBind(g, x, Binding(ty, n));
    case SDeclArray(elem, x, len) =>
      ElabEIff(sigs, g, len);
      NamesOfBind(g, x, Binding(ArrayOf(elem), n));
    case SAssign(x, e) =>
      InScopeIff(g, x);
      ElabEIff(sigs, g, e);
    case SAssignIndex(x, i, e) =>
      InScopeIff(g, x);
      ElabEIff(sigs, g, i);
      ElabEIff(sigs, g, e);
    case SIf(c, thn, els) =>
      ElabEIff(sigs, g, c);
      ElabSIff(sigs, ret, g, n, thn);
      var t := ElabS(sigs, ret, g, n, thn);
      if t.Done? && els.Some? { ElabSIff(sigs, ret, t.v.g, t.v.n, els.value); }
    case SWhile(c, body) =>
      ElabEIff(sigs, g, c);
      ElabSIff(sigs, ret, g, n, body);
    case SReturn(value) =>
      if value.Some? { ElabEIff(sigs, g, value.value); }
    case SExprStmt(e) => ElabEIff(sigs, g, e);
    case SPrint(e) => ElabEIff(sigs, g, e);
  }

  lemma {:induction false} ElabBlockIff(sigs: seq<Sig>, ret: Option<Type>, g: Scopes, n: nat, body: seq<SStmt>)
    requires g != []
    ensures SameNames(ElabS(sigs, ret, g, n, SBlock(body)), Scoped(sigs, NamesOf(g), SBlock(body)))
    decreases body, 1
  {
    hide NamesOf, Pushed, Popped, ElabSeq, ScopedSeq;
    NamesOfBind(g, "", Binding(TInt, 0));
    ElabSeqIff(sigs, ret, g + [map[]], n, body);
    var q := ElabSeq(sigs, ret, g + [map[]], n, body);
    if q.Done? {
      NamesOfBind(q.v.g, "", Binding(TInt, 0));
      assert q.v.g[..|g|] == q.v.g[..|q.v.g| - 1];
    }
  }

  lemma {:induction false} ElabSeqIff(sigs: seq<Sig>, ret: Option<Type>, g: Scopes, n: nat, ss: seq<SStmt>)
    requires g != []
    ensures SameNames(ElabSeq(sigs, ret, g, n, ss), ScopedSeq(sigs, NamesOf(g), ss))
    decreases ss, 0
  {
    hide ElabS, Scoped, NamesOf;
    if ss != [] {
      ElabSIff(sigs, ret, g, n, ss[0]);
      var q := ElabS(sigs, ret, g, n, ss[0]);
      if q.Done? { ElabSeqIff(sigs, ret, q.v.g, q.v.n, ss[1..]); }
    }
  }

  lemma {:induction false} ElabParamsNames(params: seq<Param>, n: nat)
    requires n <= |params|
    ensures var r := ElabParams(params, n); !r.Rejected? && (r.Done? ==> r.v.Keys == ParamNames(params, n))
  {
    if n > 0 { ElabParamsNames(params, n - 1); }
  }

  lemma ElabFuncIff(sigs: seq<Sig>, f: SFunc)
    ensures ElabFunc(sigs, f).Done? ==> FuncScoped(sigs, f)
    ensures ElabFunc(sigs, f).Rejected? ==> !FuncScoped(sigs, f)
  {
    hide ElabSeq, ScopedSeq, ElabParams, ParamNames;
    ElabParamsNames(f.params, |f.params|);
    var scope := ElabParams(f.params, |f.params|);
    if scope.Done? {
      ElabSeqIff(sigs, Some(f.ret), [scope.v] + [map[]], |f.params|, f.body);
      var none: map<Name, Binding> := map[];
      assert none.Keys == {};
      assert NamesOf([scope.v] + [none]) == [ParamNames(f.params, |f.params|), {}];
    }
  }

  lemma {:induction false} ElabFuncsIff(sigs: seq<Sig>, p: SProgram)
    ensures ElabFuncs(sigs, p).Done? ==> AllScoped(sigs, p)
    ensures ElabFuncs(sigs, p).Rejected? ==> !AllScoped(sigs, p)
  {
    hide ElabFunc, FuncScoped;
    if p != [] {
      ElabFuncIff(sigs, p[0]);
      ElabFuncsIff(sigs, p[1..]);
      assert forall k :: 0 <= k < |p[1..]| ==> p[1..][k] == p[k + 1];
      assert AllScoped(sigs, p) ==> AllScoped(sigs, p[1..]);
    }
  }
}
