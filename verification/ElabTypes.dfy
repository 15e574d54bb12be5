/** The conversions the parser inserts make every accepted program well formed, as long as arrays and scalars
    are not mixed and calls have the right number of arguments: the two things it does not check. */
module ElabTypes {
  import opened Values
  import opened Ast
  import opened Surface
  import opened Elab
  import opened Machine
  import opened Compile
  import opened Driver
  import opened Typing
  import opened TypeSafety
  import opened StackTypes

  // ----- what the parser leaves unchecked -----

  /** Arrays stand only where arrays are meant, and arguments match parameters in number. */
  predicate UnmixedE(fts: seq<FType>, e: Expr)
    decreases e, 1
  {
    match e
    case Index(a, i) => UnmixedE(fts, a) && UnmixedE(fts, i) && IsArray(TypeOf(a)) && !IsArray(TypeOf(i))
    case I2D(a) => UnmixedE(fts, a)
    case D2I(a) => UnmixedE(fts, a)
    case Neg(a) => UnmixedE(fts, a) && !IsArray(TypeOf(a))
    case Bin(_, a, b, _) => UnmixedE(fts, a) && UnmixedE(fts, b) && !IsArray(TypeOf(a)) && !IsArray(TypeOf(b))
    case Call(f, args, _) =>
      && f < |fts| && |args| == |fts[f].params| <= MAX_SIG_PARAMS
      && UnmixedArgs(fts, args, fts[f].params)
    case _ => true
  }

  predicate UnmixedArgs(fts: seq<FType>, es: seq<Expr>, tys: seq<Type>)
    requires |es| == |tys|
    decreases es, 0
  {
    es != [] ==>
      && UnmixedE(fts, es[0]) && SameKind(TypeOf(es[0]), tys[0])
      && UnmixedArgs(fts, es[1..], tys[1..])
  }

  /** Two scalars, or the same kind of array. */
  predicate SameKind(a: Type, b: Type) { IsArray(a) || IsArray(b) ==> a == b }

  predicate UnmixedS(fts: seq<FType>, slots: seq<Type>, st: Stmt)
    decreases st, 1
  {
    match st
    case Block(body) => UnmixedSeq(fts, slots, body)
    case DeclArray(elem, _, len) => UnmixedE(fts, len) && !IsArray(TypeOf(len))
    case Decl(ty, _, init) => !IsArray(ty) && (init.Some? ==> UnmixedE(fts, init.value) && !IsArray(TypeOf(init.value)))
    case Assign(slot, e) => UnmixedE(fts, e) && slot < |slots| && SameKind(TypeOf(e), slots[slot])
    case AssignIndex(a, i, e) =>
      && UnmixedE(fts, a) && UnmixedE(fts, i) && UnmixedE(fts, e)
      && IsArray(TypeOf(a)) && !IsArray(TypeOf(i)) && !IsArray(TypeOf(e))
    case If(c, thn, els) =>
      && UnmixedE(fts, c) && !IsArray(TypeOf(c)) && UnmixedS(fts, slots, thn)
      && (els.Some? ==> UnmixedS(fts, slots, els.value))
    case While(c, body) => UnmixedE(fts, c) && !IsArray(TypeOf(c)) && UnmixedS(fts, slots, body)
    case Return(value) => value.Some? ==> UnmixedE(fts, value.value) && !IsArray(TypeOf(value.value))
    case ExprStmt(e) => UnmixedE(fts, e)
    case Print(e) => UnmixedE(fts, e) && !IsArray(TypeOf(e))
  }

  predicate UnmixedSeq(fts: seq<FType>, slots: seq<Type>, ss: seq<Stmt>)
    decreases ss, 0
  {
    ss != [] ==> UnmixedS(fts, slots, ss[0]) && UnmixedSeq(fts, slots, ss[1..])
  }

  // ----- the types of slots -----

  /** Types of the variables a statement declares, in order. */
  function DeclTypes(st: Stmt): seq<Type>
    decreases st, 1
  {
    match st
    case Block(body) => DeclTypesSeq(body)
    case DeclArray(elem, _, _) => [ArrayOf(elem)]
    case Decl(ty, _, _) => [ty]
    case If(_, thn, els) => DeclTypes(thn) + if els.Some? then DeclTypes(els.value) else []
    case While(_, body) => DeclTypes(body)
    case _ => []
  }

  function DeclTypesSeq(ss: seq<Stmt>): seq<Type>
    decreases ss, 0
  {
    if ss == [] then [] else DeclTypes(ss[0]) + DeclTypesSeq(ss[1..])
  }

  function ParamTypes(params: seq<Param>): (r: seq<Type>)
    ensures |r| == |params|
  {
    seq(|params|, i requires 0 <= i < |params| => params[i].ty)
  }

  function FTypeOf(f: SFunc, body: Stmt): FType {
    FType(ParamTypes(f.params), f.ret, ParamTypes(f.params) + DeclTypes(body))
  }

  function FTypesOf(p: SProgram, prog: Program): seq<FType>
    requires |p| == |prog|
  {
    seq(|p|, k requires 0 <= k < |p| => FTypeOf(p[k], prog[k].body))
  }

  /** No mixing anywhere, functions return scalars, and calls have room for their arguments. */
  predicate Unmixed(p: SProgram, prog: Program)
    requires |p| == |prog|
  {
    var fts := FTypesOf(p, prog);
    forall k :: 0 <= k < |p| ==>
        UnmixedS(fts, fts[k].slots, prog[k].body) && !IsArray(p[k].ret) && |p[k].params| <= MAX_ARGS
  }

  // ----- elaboration gives well-formed trees -----

  /** Every binding in scope names a slot of its type. */
  ghost predicate Bound(g: Scopes, slots: seq<Type>) {
    forall i, x :: 0 <= i < |g| && x in g[i] ==> g[i][x].slot < |slots| && slots[g[i][x].slot] == g[i][x].ty
  }

  ghost predicate Headers(p: SProgram, fts: seq<FType>) {
    |fts| == |p| && forall k :: 0 <= k < |p| ==> fts[k].params == ParamTypes(p[k].params) && fts[k].ret == p[k].ret
  }

  /** A scalar brought to a scalar type has that type. */
  lemma CoerceOk(fts: seq<FType>, slots: seq<Type>, e: Expr, target: Type)
    ensures var c := Coerce(e, target);
            && (UnmixedE(fts, c) ==> UnmixedE(fts, e)) && IsArray(TypeOf(c)) == IsArray(TypeOf(e))
            && (OkE(fts, slots, e) ==> OkE(fts, slots, c))
            && (!IsArray(target) && !IsArray(TypeOf(e)) ==> TypeOf(c) == target)
            && (IsArray(TypeOf(e)) || IsArray(target) ==> c == e)
  {
  }

  lemma {:induction false} ElabOk(p: SProgram, fts: seq<FType>, g: Scopes, slots: seq<Type>, e: SExpr)
    requires Headers(p, fts) && Bound(g, slots) && ElabE(SigsOf(p), g, e).Done?
    ensures var q := ElabE(SigsOf(p), g, e).v; UnmixedE(fts, q) ==> OkE(fts, slots, q)
    decreases e, 1
  {
    hide Headers;
    match e
    case SInt(_) =>
    case SDbl(_) =>
    case SVar(x) =>
    case SNeg(a) => ElabOk(p, fts, g, slots, a);
    case SIndex(x, i) =>
      ElabOk(p, fts, g, slots, i);
      CoerceOk(fts, slots, ElabE(SigsOf(p), g, i).v, TInt);
    case SBin(op, a, b) => ElabOkBin(p, fts, g, slots, op, a, b);
    case SCall(f, args) => ElabOkCall(p, fts, g, slots, f, args);
  }

  lemma {:induction false} ElabOkBin(p: SProgram, fts: seq<FType>, g: Scopes, slots: seq<Type>, op: Op, a: SExpr,
                                     b: SExpr)
    requires Headers(p, fts) && Bound(g, slots) && ElabE(SigsOf(p), g, SBin(op, a, b)).Done?
    ensures var q := ElabE(SigsOf(p), g, SBin(op, a, b)).v; UnmixedE(fts, q) ==> OkE(fts, slots, q)
    decreases SBin(op, a, b), 0
  {
    hide Headers, Bound, Coerce;
    var x, y := ElabE(SigsOf(p), g, a).v, ElabE(SigsOf(p), g, b).v;
    ElabOk(p, fts, g, slots, a);
    ElabOk(p, fts, g, slots, b);
    CoerceOk(fts, slots, x, Common(TypeOf(x), TypeOf(y)));
    CoerceOk(fts, slots, y, Common(TypeOf(x), TypeOf(y)));
  }

  lemma {:induction false} ElabOkCall(p: SProgram, fts: seq<FType>, g: Scopes, slots: seq<Type>, f: Name,
                                      args: seq<SExpr>)
    requires Headers(p, fts) && Bound(g, slots) && ElabE(SigsOf(p), g, SCall(f, args)).Done?
    ensures var q := ElabE(SigsOf(p), g, SCall(f, args)).v; UnmixedE(fts, q) ==> OkE(fts, slots, q)
    decreases SCall(f, args), 0
  {
    hide Bound;
    var k := FindSig(SigsOf(p), f);
    var q := ElabE(SigsOf(p), g, SCall(f, args)).v;
    if UnmixedE(fts, q) {
      var tys := fts[k].params;
      var sig := SigsOf(p)[k].params;
      assert |sig| == |tys| && forall j :: 0 <= j < |sig| ==> sig[j] == Elem(tys[j]);
      ElabOkArgs(p, fts, g, slots, args, sig, tys);
    }
  }

  /** Array parameters are recorded by their element type; conversion leaves arrays alone, so no harm is done. */
  lemma {:induction false} ElabOkArgs(p: SProgram, fts: seq<FType>, g: Scopes, slots: seq<Type>, es: seq<SExpr>,
                                      sig: seq<Type>, tys: seq<Type>)
    requires Headers(p, fts) && Bound(g, slots) && ElabArgs(SigsOf(p), g, es, sig).Done?
    requires |es| == |tys| == |sig| && forall j :: 0 <= j < |sig| ==> sig[j] == Elem(tys[j])
    ensures var q := ElabArgs(SigsOf(p), g, es, sig).v;
            UnmixedArgs(fts, q, tys) ==> OkArgs(fts, slots, q) && ArgTypes(q) == tys
    decreases es, 0
  {
    hide Bound, Headers, Coerce, ElabE, UnmixedE, OkE;
    if es != [] {
      var x := ElabE(SigsOf(p), g, es[0]).v;
      ElabOk(p, fts, g, slots, es[0]);
      CoerceOk(fts, slots, x, sig[0]);
      ElabOkArgs(p, fts, g, slots, es[1..], sig[1..], tys[1..]);
      var q := ElabArgs(SigsOf(p), g, es, sig).v;
      assert q == [Coerce(x, sig[0])] + ElabArgs(SigsOf(p), g, es[1..], sig[1..]).v;
      assert q[1..] == ElabArgs(SigsOf(p), g, es[1..], sig[1..]).v;
    }
  }

  // ----- statements -----

  /** Slots `n`, `n + 1`, ... have the types `tys`. */
  ghost predicate SlotsFrom(slots: seq<Type>, n: nat, tys: seq<Type>) {
    n + |tys| <= |slots| && slots[n..n + |tys|] == tys
  }

  lemma SlotsSplit(slots: seq<Type>, n: nat, a: seq<Type>, b: seq<Type>)
    requires SlotsFrom(slots, n, a + b)
    ensures SlotsFrom(slots, n, a) && SlotsFrom(slots, n + |a|, b)
  {
    assert a == (a + b)[..|a|] == slots[n..n + |a|];
    assert b == (a + b)[|a|..] == slots[n + |a|..n + |a| + |b|];
  }

  lemma BindBound(g: Scopes, slots: seq<Type>, x: Name, ty: Type, n: nat)
    requires g != [] && Bound(g, slots) && SlotsFrom(slots, n, [ty])
    ensures Bound(Bind(g, x, Binding(ty, n)), slots) && n < |slots| && slots[n] == ty
  {
    assert slots[n] == slots[n..n + 1][0];
  }

  /** What the elaboration `q` of a statement amounts to. */
  ghost predicate OkPiece(fts: seq<FType>, slots: seq<Type>, ret: Type, n: nat, q: Piece<Stmt>) {
    q.n == n + |DeclTypes(q.st)| && OkS(fts, slots, ret, q.st) && Bound(q.g, slots)
  }

  ghost predicate UnmixedHere(p: SProgram, fts: seq<FType>, slots: seq<Type>, ret: Type, g: Scopes, n: nat,
                              q: Piece<Stmt>)
  {
    && Headers(p, fts) && Bound(g, slots) && !IsArray(ret)
    && SlotsFrom(slots, n, DeclTypes(q.st)) && UnmixedS(fts, slots, q.st)
  }

  lemma {:induction false} ElabOkS(p: SProgram, fts: seq<FType>, slots: seq<Type>, ret: Type, g: Scopes, n: nat,
                                   st: SStmt)
    requires g != [] && ElabS(SigsOf(p), Some(ret), g, n, st).Done?
    requires UnmixedHere(p, fts, slots, ret, g, n, ElabS(SigsOf(p), Some(ret), g, n, st).v)
    ensures OkPiece(fts, slots, ret, n, ElabS(SigsOf(p), Some(ret), g, n, st).v)
    decreases st, 1
  {
    hide Headers, Bound, Coerce, ElabE, UnmixedE, OkE, SlotsFrom;
    match st
    case SBlock(body) => ElabOkBlock(p, fts, slots, ret, g, n, st);
    case SDecl(_, _, _) => ElabOkDecl(p, fts, slots, ret, g, n, st);
    case SDeclArray(_, _, _) => ElabOkDecl(p, fts, slots, ret, g, n, st);
    case SIf(_, _, _) => ElabOkIf(p, fts, slots, ret, g, n, st);
    case SWhile(c, body) =>
      ElabOk(p, fts, g, slots, c);
      CoerceOk(fts, slots, ElabE(SigsOf(p), g, c).v, TInt);
      ElabOkS(p, fts, slots, ret, g, n, body);
    case SAssignIndex(_, _, _) => ElabOkStore(p, fts, slots, ret, g, n, st);
    case SAssign(_, _) => ElabOkAssign(p, fts, slots, ret, g, n, st);
    case SReturn(value) =>
      if value.Some? {
        ElabOk(p, fts, g, slots, value.value);
        CoerceOk(fts, slots, ElabE(SigsOf(p), g, value.value).v, ret);
      }
    case SExprStmt(e) => ElabOk(p, fts, g, slots, e);
    case SPrint(e) => ElabOk(p, fts, g, slots, e);
  }

  lemma {:induction false} ElabOkBlock(p: SProgram, fts: seq<FType>, slots: seq<Type>, ret: Type, g: Scopes, n: nat,
                                       st: SStmt)
    requires st.SBlock? && g != [] && ElabS(SigsOf(p), Some(ret), g, n, st).Done?
    requires UnmixedHere(p, fts, slots, ret, g, n, ElabS(SigsOf(p), Some(ret), g, n, st).v)
    ensures OkPiece(fts, slots, ret, n, ElabS(SigsOf(p), Some(ret), g, n, st).v)
    decreases st, 0
  {
    hide Headers, SlotsFrom, ElabSeq, OkSeq, UnmixedSeq, DeclTypesSeq;
    ElabOkSeq(p, fts, slots, ret, g + [map[]], n, st.body);
  }

  lemma {:induction false} ElabOkSeq(p: SProgram, fts: seq<FType>, slots: seq<Type>, ret: Type, g: Scopes, n: nat,
                                     ss: seq<SStmt>)
    requires g != [] && ElabSeq(SigsOf(p), Some(ret), g, n, ss).Done? && Headers(p, fts) && Bound(g, slots)
             && !IsArray(ret)
    requires var q := ElabSeq(SigsOf(p), Some(ret), g, n, ss).v;
             SlotsFrom(slots, n, DeclTypesSeq(q.st)) && UnmixedSeq(fts, slots, q.st)
    ensures var q := ElabSeq(SigsOf(p), Some(ret), g, n, ss).v;
            q.n == n + |DeclTypesSeq(q.st)| && OkSeq(fts, slots, ret, q.st) && Bound(q.g, slots)
    decreases ss, 0
  {
    hide Headers, Bound, SlotsFrom, ElabS, UnmixedS, OkS, DeclTypes;
    if ss != [] {
      var a := ElabS(SigsOf(p), Some(ret), g, n, ss[0]).v;
      var b := ElabSeq(SigsOf(p), Some(ret), a.g, a.n, ss[1..]).v;
      var q := ElabSeq(SigsOf(p), Some(ret), g, n, ss).v;
      assert q.st == [a.st] + b.st && q.st[1..] == b.st;
      SlotsSplit(slots, n, DeclTypes(a.st), DeclTypesSeq(b.st));
      ElabOkS(p, fts, slots, ret, g, n, ss[0]);
      ElabOkSeq(p, fts, slots, ret, a.g, a.n, ss[1..]);
    }
  }

  lemma ElabOkDecl(p: SProgram, fts: seq<FType>, slots: seq<Type>, ret: Type, g: Scopes, n: nat, st: SStmt)
    requires (st.SDecl? || st.SDeclArray?) && g != [] && ElabS(SigsOf(p), Some(ret), g, n, st).Done?
    requires UnmixedHere(p, fts, slots, ret, g, n, ElabS(SigsOf(p), Some(ret), g, n, st).v)
    ensures OkPiece(fts, slots, ret, n, ElabS(SigsOf(p), Some(ret), g, n, st).v)
  {
    hide Headers, Bound, Coerce, ElabE, UnmixedE, OkE, SlotsFrom;
    match st
    case SDecl(ty, x, init) =>
      BindBound(g, slots, x, ty, n);
      if init.Some? {
        ElabOk(p, fts, g, slots, init.value);
        CoerceOk(fts, slots, ElabE(SigsOf(p), g, init.value).v, ty);
      }
    case SDeclArray(elem, x, len) =>
      BindBound(g, slots, x, ArrayOf(elem), n);
      ElabOk(p, fts, g, slots, len);
      CoerceOk(fts, slots, ElabE(SigsOf(p), g, len).v, TInt);
  }

  lemma ElabOkAssign(p: SProgram, fts: seq<FType>, slots: seq<Type>, ret: Type, g: Scopes, n: nat, st: SStmt)
    requires st.SAssign? && g != [] && ElabS(SigsOf(p), Some(ret), g, n, st).Done?
    requires UnmixedHere(p, fts, slots, ret, g, n, ElabS(SigsOf(p), Some(ret), g, n, st).v)
    ensures OkPiece(fts, slots, ret, n, ElabS(SigsOf(p), Some(ret), g, n, st).v)
  {
    hide Headers, Coerce, ElabE, UnmixedE, OkE, SlotsFrom;
    ElabOk(p, fts, g, slots, st.e);
    CoerceOk(fts, slots, ElabE(SigsOf(p), g, st.e).v, Lookup(g, st.x).value.ty);
  }

  lemma ElabOkStore(p: SProgram, fts: seq<FType>, slots: seq<Type>, ret: Type, g: Scopes, n: nat, st: SStmt)
    requires st.SAssignIndex? && g != [] && ElabS(SigsOf(p), Some(ret), g, n, st).Done?
    requires UnmixedHere(p, fts, slots, ret, g, n, ElabS(SigsOf(p), Some(ret), g, n, st).v)
    ensures OkPiece(fts, slots, ret, n, ElabS(SigsOf(p), Some(ret), g, n, st).v)
  {
    hide Headers, Coerce, ElabE, SlotsFrom;
    ElabOk(p, fts, g, slots, st.idx);
    ElabOk(p, fts, g, slots, st.e);
    CoerceOk(fts, slots, ElabE(SigsOf(p), g, st.idx).v, TInt);
    CoerceOk(fts, slots, ElabE(SigsOf(p), g, st.e).v, Elem(Lookup(g, st.x).value.ty));
  }

  lemma {:induction false} ElabOkIf(p: SProgram, fts: seq<FType>, slots: seq<Type>, ret: Type, g: Scopes, n: nat,
                                    st: SStmt)
    requires st.SIf? && g != [] && ElabS(SigsOf(p), Some(ret), g, n, st).Done?
    requires UnmixedHere(p, fts, slots, ret, g, n, ElabS(SigsOf(p), Some(ret), g, n, st).v)
    ensures OkPiece(fts, slots, ret, n, ElabS(SigsOf(p), Some(ret), g, n, st).v)
    decreases st, 0
  {
    hide Headers, Bound, Coerce, ElabE, UnmixedE, OkE, SlotsFrom;
    ElabOk(p, fts, g, slots, st.cond);
    CoerceOk(fts, slots, ElabE(SigsOf(p), g, st.cond).v, TInt);
    var a := ElabS(SigsOf(p), Some(ret), g, n, st.thn).v;
    if st.els.Some? {
      var b := ElabS(SigsOf(p), Some(ret), a.g, a.n, st.els.value).v;
      SlotsSplit(slots, n, DeclTypes(a.st), DeclTypes(b.st));
      ElabOkS(p, fts, slots, ret, g, n, st.thn);
      ElabOkS(p, fts, slots, ret, a.g, a.n, st.els.value);
    } else {
      assert DeclTypes(a.st) + [] == DeclTypes(a.st);
      ElabOkS(p, fts, slots, ret, g, n, st.thn);
    }
  }

  // ----- programs -----

  lemma {:induction false} ParamsBound(params: seq<Param>, n: nat, slots: seq<Type>)
    requires n <= |params| && ParamTypes(params) <= slots && ElabParams(params, n).Done?
    ensures Bound([ElabParams(params, n).v], slots)
  {
    if n > 0 {
      ParamsBound(params, n - 1, slots);
      var before: Scopes := [ElabParams(params, n - 1).v];
      var x := params[n - 1].x;
      assert slots[n - 1] == ParamTypes(params)[n - 1] == params[n - 1].ty;
      var after: Scopes := [ElabParams(params, n).v];
      forall i: nat, y: Name | i < 1 && y in after[i]
        ensures after[i][y].slot < |slots| && slots[after[i][y].slot] == after[i][y].ty
      {
        if y != x { assert y in before[0] && before[0][y] == after[0][y]; }
      }
    }
  }

  lemma FuncOk(p: SProgram, fts: seq<FType>, f: SFunc, fn: Func)
    requires Headers(p, fts) && ElabFunc(SigsOf(p), f) == Done(fn)
    requires UnmixedS(fts, FTypeOf(f, fn.body).slots, fn.body) && !IsArray(f.ret) && |f.params| <= MAX_ARGS
    ensures OkFunc(fts, FTypeOf(f, fn.body), fn)
  {
    hide Headers, Bound, ElabS, UnmixedS, OkS, DeclTypes, ElabParams;
    var slots := FTypeOf(f, fn.body).slots;
    ParamsBound(f.params, |f.params|, slots);
    var g := [ElabParams(f.params, |f.params|).v];
    assert slots[|f.params|..] == DeclTypes(fn.body);
    ElabOkS(p, fts, slots, f.ret, g, |f.params|, SBlock(f.body));
  }

  /** Every accepted program that does not mix arrays and scalars is well formed. */
  lemma ElaboratedIsOk(p: SProgram, prog: Program)
    requires ElabProgram(p) == Done(prog) && Unmixed(p, prog)
    ensures OkProgram(FTypesOf(p, prog), prog)
  {
    hide UnmixedS, OkFunc, ElabFunc;
    var fts := FTypesOf(p, prog);
    forall k | 0 <= k < |prog| ensures OkFunc(fts, fts[k], prog[k]) {
      FuncOk(p, fts, p[k], prog[k]);
    }
  }

  /** Tag soundness of the inserted conversions, for source programs: in every state of every run each
      conversion reads the member its type says, and nothing worse than a run-time error can happen. */
  lemma ConversionsAreSound(fp: Float, p: SProgram, prog: Program, f: nat, k: nat)
    requires ElabProgram(p) == Done(prog) && Unmixed(p, prog) && FitsStack(prog) && f < |prog|
    ensures var t := TypingOf(fp, prog, FTypesOf(p, prog));
            var c := Start(t.image, f, [], Store([], [])).value;
            && Throughout(VmOf(fp, t.image), k, c, x => ReadsItsType(fp, t.image, x))
            && match Exec(VmOf(fp, t.image), k, c)
               case Ok(fin, _) => if p[f].ret.TInt? then fin.v.VInt? else fin.v.VDbl? || fin.v == ZERO
               case Trap(m, _) => RuntimeError(m)
               case Wrong => false
               case Timeout => true
  {
    hide Unmixed, OkProgram, ReadsItsType, IsGood, Driver.Exec;
    ElaboratedIsOk(p, prog);
    var t := TypingOf(fp, prog, FTypesOf(p, prog));
    TypesHold(fp, prog, FTypesOf(p, prog), f, k);
    forall c | IsGood(true, t, c) ensures ReadsItsType(fp, t.image, c) { GoodReads(fp, t, c); }
    ThroughoutWeaker(VmOf(fp, t.image), k, Start(t.image, f, [], Store([], [])).value,
                     x => IsGood(true, t, x), x => ReadsItsType(fp, t.image, x));
    RetIsScalar(p, prog, f);
  }

  lemma RetIsScalar(p: SProgram, prog: Program, f: nat)
    requires |p| == |prog| && Unmixed(p, prog) && f < |p|
    ensures FTypesOf(p, prog)[f].ret == p[f].ret && !IsArray(p[f].ret)
  {
  }

  /** The instruction at `c` finds its operands, and if it converts, a value of the type it converts from. */
  ghost predicate ReadsItsType(fp: Float, image: Image, c: Cfg) {
    && c.fn < |image.funcs| && c.pc < |image.funcs[c.fn].code|
    && var i, n := image.funcs[c.fn].code[c.pc], |c.stack|;
    && Pops(i) <= n && n - Pops(i) + Pushes(i) <= STACK_MAX
    && (i.OpI2D? ==> c.stack[n - 1].VInt?)
    && (i.OpD2I? ==> c.stack[n - 1].VDbl? || (c.stack[n - 1] == ZERO && RawDouble(fp, c.stack[n - 1]) == 0))
  }

  lemma GoodReads(fp: Float, t: Typed, c: Cfg)
    requires IsGood(true, t, c)
    ensures ReadsItsType(fp, t.image, c)
  {
    hide IsGood;
    HeightIsStatic(true, t, c);
    ConversionsReadTheirType(fp, t, c);
  }

  lemma {:induction false} ThroughoutWeaker(vm: Vm, k: nat, c: Cfg, good: Cfg -> bool, fine: Cfg -> bool)
    requires forall x: Cfg :: good(x) ==> fine(x)
    requires Throughout(vm, k, c, good)
    ensures Throughout(vm, k, c, fine)
    decreases k
  {
    if k > 0 {
      match vm.step(c)
      case Go(c1) => ThroughoutWeaker(vm, k - 1, c1, good, fine);
      case Stop(_, _) =>
      case Fault(_) =>
      case Enter(f, args, c1) =>
        var c0 := vm.start(f, args, c1.s);
        var r := Run(vm, k - 1, f, args, c1.s);
        if c0.Some? { ThroughoutWeaker(vm, k - 1, c0.value, good, fine); }
        if r.Ok? { ThroughoutWeaker(vm, r.val.left, Resume(c1, r.val.v, r.store), good, fine); }
    }
  }
}
