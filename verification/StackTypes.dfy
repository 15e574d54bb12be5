/** The static stacks of generated code, computed from the tree alone: well-formed trees give checked code, and
    so do all others as far as stack heights go. */
module StackTypes {
  import opened Values
  import opened Ast
  import opened Driver
  import opened Machine
  import opened Compile
  import opened Typing
  import opened TypeSafety
  import opened Pools

  // ----- static stacks, by the shape of the tree -----

  /** The stack in front of each instruction of `e`, on top of `base`. */
  function TypesE(e: Expr, base: seq<Type>): (r: seq<seq<Type>>)
    ensures r != [] && r[0] == base
    decreases e, 1
  {
    match e
    case IntLit(_) => [base]
    case DblLit(_) => [base]
    case Var(_, _) => [base]
    case Index(a, i) => TypesE(a, base) + TypesE(i, base + [TypeOf(a)]) + [base + [TypeOf(a), TypeOf(i)]]
    case I2D(a) => TypesE(a, base) + [base + [TypeOf(a)]]
    case D2I(a) => TypesE(a, base) + [base + [TypeOf(a)]]
    case Neg(a) => TypesE(a, base) + [base + [TypeOf(a)]]
    case Bin(_, a, b, _) => TypesE(a, base) + TypesE(b, base + [TypeOf(a)]) + [base + [TypeOf(a), TypeOf(b)]]
    case Call(_, args, _) => TypesArgs(args, base) + [base + ArgTypes(args)]
  }

  function TypesArgs(es: seq<Expr>, base: seq<Type>): (r: seq<seq<Type>>)
    ensures if es == [] then r == [] else r != [] && r[0] == base
    decreases es, 0
  {
    if es == [] then [] else TypesE(es[0], base) + TypesArgs(es[1..], base + [TypeOf(es[0])])
  }

  function ArgTypes(es: seq<Expr>): (r: seq<Type>)
    ensures |r| == |es|
  {
    if es == [] then [] else [TypeOf(es[0])] + ArgTypes(es[1..])
  }

  /** The stack in front of each instruction of `st`; every statement begins on an empty one. */
  function TypesS(st: Stmt, ret: Type): (r: seq<seq<Type>>)
    ensures r != [] ==> r[0] == []
    decreases st, 1
  {
    match st
    case Block(body) => TypesSeq(body, ret)
    case DeclArray(elem, _, len) => TypesE(len, []) + [[TypeOf(len)], [ArrayOf(elem)]]
    case Decl(ty, _, init) =>
      (match init
       case Some(e) => TypesE(e, []) + [[TypeOf(e)]]
       case None => [[], [ty]])
    case Assign(_, e) => TypesE(e, []) + [[TypeOf(e)]]
    case AssignIndex(a, i, e) =>
      TypesE(a, []) + TypesE(i, [TypeOf(a)]) + TypesE(e, [TypeOf(a), TypeOf(i)]) + [[TypeOf(a), TypeOf(i), TypeOf(e)]]
    case If(c, thn, els) =>
      (match els
       case None => TypesE(c, []) + [[TypeOf(c)]] + TypesS(thn, ret)
       case Some(st2) => TypesE(c, []) + [[TypeOf(c)]] + TypesS(thn, ret) + [[]] + TypesS(st2, ret))
    case While(c, body) => TypesE(c, []) + [[TypeOf(c)]] + TypesS(body, ret) + [[]]
    case Return(value) =>
      (match value
       case None => [[], [ret]]
       case Some(e) => TypesE(e, []) + [[TypeOf(e)]])
    case ExprStmt(e) => TypesE(e, []) + [[TypeOf(e)]]
    case Print(e) => TypesE(e, []) + [[TypeOf(e)]]
  }

  function TypesSeq(ss: seq<Stmt>, ret: Type): (r: seq<seq<Type>>)
    ensures r != [] ==> r[0] == []
    decreases ss, 0
  {
    if ss == [] then [] else TypesS(ss[0], ret) + TypesSeq(ss[1..], ret)
  }

  // ----- well-formed trees -----

  /** Operands have the types their context asks for. */
  predicate OkE(fts: seq<FType>, slots: seq<Type>, e: Expr)
    decreases e, 1
  {
    match e
    case IntLit(_) => true
    case DblLit(_) => true
    case Var(slot, ty) => slot < |slots| && slots[slot] == ty
    case Index(a, i) => OkE(fts, slots, a) && OkE(fts, slots, i) && IsArray(TypeOf(a)) && TypeOf(i) == TInt
    case I2D(a) => OkE(fts, slots, a) && TypeOf(a) == TInt
    case D2I(a) => OkE(fts, slots, a) && TypeOf(a) == TDouble
    case Neg(a) => OkE(fts, slots, a) && !IsArray(TypeOf(a))
    case Bin(op, a, b, ty) =>
      && OkE(fts, slots, a) && OkE(fts, slots, b) && !IsArray(TypeOf(a)) && TypeOf(a) == TypeOf(b)
      && ty == if IsComparison(op) then TInt else TypeOf(a)
    case Call(f, args, ty) =>
      && f < |fts| && ty == fts[f].ret && ArgTypes(args) == fts[f].params && OkArgs(fts, slots, args)
  }

  predicate OkArgs(fts: seq<FType>, slots: seq<Type>, es: seq<Expr>)
    decreases es, 0
  {
    es != [] ==> OkE(fts, slots, es[0]) && OkArgs(fts, slots, es[1..])
  }

  predicate OkS(fts: seq<FType>, slots: seq<Type>, ret: Type, st: Stmt)
    decreases st, 1
  {
    match st
    case Block(body) => OkSeq(fts, slots, ret, body)
    case DeclArray(elem, slot, len) =>
      OkE(fts, slots, len) && TypeOf(len) == TInt && slot < |slots| && slots[slot] == ArrayOf(elem)
    case Decl(ty, slot, init) =>
      && slot < |slots| && slots[slot] == ty && !IsArray(ty)
      && (init.Some? ==> OkE(fts, slots, init.value) && TypeOf(init.value) == ty)
    case Assign(slot, e) => OkE(fts, slots, e) && slot < |slots| && slots[slot] == TypeOf(e)
    case AssignIndex(a, i, e) =>
      && OkE(fts, slots, a) && OkE(fts, slots, i) && OkE(fts, slots, e)
      && IsArray(TypeOf(a)) && TypeOf(i) == TInt && TypeOf(e) == Elem(TypeOf(a))
    case If(c, thn, els) =>
      && OkE(fts, slots, c) && TypeOf(c) == TInt && OkS(fts, slots, ret, thn)
      && (els.Some? ==> OkS(fts, slots, ret, els.value))
    case While(c, body) => OkE(fts, slots, c) && TypeOf(c) == TInt && OkS(fts, slots, ret, body)
    case Return(value) => value.Some? ==> OkE(fts, slots, value.value) && TypeOf(value.value) == ret
    case ExprStmt(e) => OkE(fts, slots, e)
    case Print(e) => OkE(fts, slots, e) && !IsArray(TypeOf(e))
  }

  predicate OkSeq(fts: seq<FType>, slots: seq<Type>, ret: Type, ss: seq<Stmt>)
    decreases ss, 0
  {
    ss != [] ==> OkS(fts, slots, ret, ss[0]) && OkSeq(fts, slots, ret, ss[1..])
  }

  predicate OkFunc(fts: seq<FType>, ft: FType, f: Func) {
    && |ft.slots| == f.nlocals && ft.params <= ft.slots && |ft.params| <= MAX_ARGS
    && OkS(fts, ft.slots, ft.ret, f.body)
  }

  predicate OkProgram(fts: seq<FType>, prog: Program) {
    |fts| == |prog| && forall k :: 0 <= k < |prog| ==> OkFunc(fts, fts[k], prog[k])
  }

  // ----- generated code is checked -----

  /** `code` and its static stacks stand at address `pc` of function `f`. */
  ghost predicate Sits(t: Typed, f: nat, pc: nat, code: seq<Instr>, tys: seq<seq<Type>>) {
    && f < |t.image.funcs| && f < |t.maps| && |code| == |tys| && |t.image.funcs[f].code| == |t.maps[f]|
    && pc + |code| <= |t.maps[f]|
    && t.image.funcs[f].code[pc..pc + |code|] == code && t.maps[f][pc..pc + |code|] == tys
  }

  lemma SitsSplit(t: Typed, f: nat, pc: nat, a: seq<Instr>, b: seq<Instr>, ta: seq<seq<Type>>, tb: seq<seq<Type>>)
    requires Sits(t, f, pc, a + b, ta + tb) && |a| == |ta|
    ensures Sits(t, f, pc, a, ta) && Sits(t, f, pc + |a|, b, tb)
  {
    var code, map0 := t.image.funcs[f].code, t.maps[f];
    assert a == (a + b)[..|a|] == code[pc..pc + |a|];
    assert b == (a + b)[|a|..] == code[pc + |a|..pc + |a| + |b|];
    assert ta == (ta + tb)[..|a|] == map0[pc..pc + |a|];
    assert tb == (ta + tb)[|a|..] == map0[pc + |a|..pc + |a| + |b|];
  }

  lemma SitsFirst(t: Typed, f: nat, pc: nat, code: seq<Instr>, tys: seq<seq<Type>>)
    requires Sits(t, f, pc, code, tys) && code != []
    ensures t.image.funcs[f].code[pc] == code[0] && t.maps[f][pc] == tys[0]
  {
    assert t.image.funcs[f].code[pc] == t.image.funcs[f].code[pc..pc + |code|][0];
    assert t.maps[f][pc] == t.maps[f][pc..pc + |code|][0];
  }

  /** The stack in front of address `pc`. */
  ghost predicate StackAt(t: Typed, f: nat, pc: nat, tys: seq<Type>) {
    f < |t.maps| && pc < |t.maps[f]| && t.maps[f][pc] == tys
  }

  /** Every instruction from `lo` to before `hi` agrees with the stacks around it. */
  ghost predicate Flows(strict: bool, t: Typed, f: nat, lo: nat, hi: nat)
  {
    && f < |t.image.funcs| && f < |t.maps| && |t.image.funcs[f].code| == |t.maps[f]| && (strict ==> f < |t.fts|)
    && hi <= |t.maps[f]|
    && forall pc {:trigger FlowOk(strict, t, f, t.image.funcs[f].code, t.maps[f], pc)} ::
         lo <= pc < hi ==> FlowOk(strict, t, f, t.image.funcs[f].code, t.maps[f], pc)
  }

  lemma {:induction false} TypesLength(fp: Float, e: Expr, pool: Pool, base: seq<Type>)
    ensures |TypesE(e, base)| == |GenE(fp, e, pool).code|
    decreases e, 1
  {
    match e
    case IntLit(_) =>
    case DblLit(_) =>
    case Var(_, _) =>
    case Index(a, i) =>
      TypesLength(fp, a, pool, base);
      TypesLength(fp, i, GenE(fp, a, pool).pool, base + [TypeOf(a)]);
    case I2D(a) => TypesLength(fp, a, pool, base);
    case D2I(a) => TypesLength(fp, a, pool, base);
    case Neg(a) => TypesLength(fp, a, pool, base);
    case Bin(_, a, b, _) =>
      TypesLength(fp, a, pool, base);
      TypesLength(fp, b, GenE(fp, a, pool).pool, base + [TypeOf(a)]);
    case Call(_, args, _) => TypesLengthArgs(fp, args, pool, base);
  }

  lemma {:induction false} TypesLengthArgs(fp: Float, es: seq<Expr>, pool: Pool, base: seq<Type>)
    ensures |TypesArgs(es, base)| == |GenArgs(fp, es, pool).code|
    decreases es, 0
  {
    if es != [] {
      TypesLength(fp, es[0], pool, base);
      TypesLengthArgs(fp, es[1..], GenE(fp, es[0], pool).pool, base + [TypeOf(es[0])]);
    }
  }

  /** One instruction that only works on the stack. */
  lemma FlowOne(strict: bool, t: Typed, f: nat, pc: nat, i: Instr, a: seq<Type>, b: seq<Type>)
    requires Sits(t, f, pc, [i], [a]) && StackAt(t, f, pc + 1, b) && (strict ==> f < |t.fts|)
    requires Moves(strict, t, f, i, a, b) && !i.OpJmp? && !i.OpJz? && !i.OpRet? && !i.OpRetV? && !i.OpHalt?
    ensures Flows(strict, t, f, pc, pc + 1)
  {
    hide Moves;
    SitsFirst(t, f, pc, [i], [a]);
  }

  lemma FlowsJoin(strict: bool, t: Typed, f: nat, a: nat, b: nat, c: nat)
    requires Flows(strict, t, f, a, b) && Flows(strict, t, f, b, c) && a <= b <= c
    ensures Flows(strict, t, f, a, c)
  {
    hide FlowOk;
  }

  /** What every lemma about an expression assumes. */
  ghost predicate Here(strict: bool, t: Typed, f: nat, fp: Float, e: Expr, pool: Pool, pc: nat, base: seq<Type>) {
    var g := GenE(fp, e, pool);
    && g.pool <= t.image.consts && Sits(t, f, pc, g.code, TypesE(e, base))
    && StackAt(t, f, pc + |g.code|, base + [TypeOf(e)])
    && (strict ==> f < |t.fts| && OkE(t.fts, t.fts[f].slots, e))
  }

  lemma {:induction false} TypedE(strict: bool, t: Typed, f: nat, fp: Float, e: Expr, pool: Pool, pc: nat,
                                  base: seq<Type>)
    requires Here(strict, t, f, fp, e, pool, pc, base)
    ensures Flows(strict, t, f, pc, pc + |GenE(fp, e, pool).code|)
    decreases e, 3
  {
    hide Sits, Flows, StackAt;
    match e
    case I2D(a) => TypedUnary(strict, t, f, fp, e, a, OpI2D, pool, pc, base);
    case D2I(a) => TypedUnary(strict, t, f, fp, e, a, OpD2I, pool, pc, base);
    case Neg(a) => TypedUnary(strict, t, f, fp, e, a, OpNeg, pool, pc, base);
    case Index(a, i) => TypedBinary(strict, t, f, fp, e, a, i, OpALoad, pool, pc, base);
    case Bin(op, a, b, _) => TypedBinary(strict, t, f, fp, e, a, b, OpBin(op), pool, pc, base);
    case Call(_, args, _) => TypedCall(strict, t, f, fp, e, pool, pc, base);
    case _ => TypedAtom(strict, t, f, fp, e, pool, pc, base);
  }

  lemma TypedAtom(strict: bool, t: Typed, f: nat, fp: Float, e: Expr, pool: Pool, pc: nat, base: seq<Type>)
    requires Here(strict, t, f, fp, e, pool, pc, base) && (e.IntLit? || e.DblLit? || e.Var?)
    ensures Flows(strict, t, f, pc, pc + |GenE(fp, e, pool).code|)
  {
    hide Sits, Flows, StackAt;
    var g := GenE(fp, e, pool);
    var i := g.code[0];
    assert g.code == [i] && TypesE(e, base) == [base];
    if i.OpPushC? { PushedConst(fp, pool, if e.IntLit? then CInt(e.i) else CDbl(e.d)); }
    var out := base + [TypeOf(e)];
    assert out[..|base|] == base;
    FlowOne(strict, t, f, pc, i, base, out);
  }

  lemma PushedConst(fp: Float, pool: Pool, c: Const)
    requires c.CDbl? ==> IsLiteral(c.d)
    ensures var k, p := FindConst(fp, pool, c), Intern(fp, pool, c);
            k < |p| && p[k].CInt? == c.CInt?
  {
  }

  lemma UnaryShape(fp: Float, e: Expr, a: Expr, i: Instr, pool: Pool, base: seq<Type>)
    requires (e == I2D(a) && i == OpI2D) || (e == D2I(a) && i == OpD2I) || (e == Neg(a) && i == OpNeg)
    ensures GenE(fp, e, pool) == Gen(GenE(fp, a, pool).code + [i], GenE(fp, a, pool).pool)
    ensures TypesE(e, base) == TypesE(a, base) + [base + [TypeOf(a)]]
  {
  }

  lemma UnaryMoves(strict: bool, t: Typed, f: nat, e: Expr, a: Expr, i: Instr, base: seq<Type>)
    requires (e == I2D(a) && i == OpI2D) || (e == D2I(a) && i == OpD2I) || (e == Neg(a) && i == OpNeg)
    requires strict ==> f < |t.fts| && OkE(t.fts, t.fts[f].slots, e)
    ensures Moves(strict, t, f, i, base + [TypeOf(a)], base + [TypeOf(e)])
    ensures strict ==> OkE(t.fts, t.fts[f].slots, a)
  {
    var mid, out := base + [TypeOf(a)], base + [TypeOf(e)];
    assert mid[..|base|] == base == out[..|base|];
  }

  lemma {:induction false} TypedUnary(strict: bool, t: Typed, f: nat, fp: Float, e: Expr, a: Expr, i: Instr, pool: Pool,
                                      pc: nat, base: seq<Type>)
    requires Here(strict, t, f, fp, e, pool, pc, base)
    requires (e == I2D(a) && i == OpI2D) || (e == D2I(a) && i == OpD2I) || (e == Neg(a) && i == OpNeg)
    ensures Flows(strict, t, f, pc, pc + |GenE(fp, e, pool).code|)
    decreases e, 2
  {
    hide Sits, Flows, StackAt, Moves, Compile.GenE, TypesE, OkE;
    UnaryShape(fp, e, a, i, pool, base);
    UnaryMoves(strict, t, f, e, a, i, base);
    var g := GenE(fp, a, pool);
    TypesLength(fp, a, pool, base);
    var mid, out := base + [TypeOf(a)], base + [TypeOf(e)];
    SitsSplit(t, f, pc, g.code, [i], TypesE(a, base), [mid]);
    StackHere(t, f, pc + |g.code|, [i], [mid]);
    TypedE(strict, t, f, fp, a, pool, pc, base);
    FlowOne(strict, t, f, pc + |g.code|, i, mid, out);
    FlowsJoin(strict, t, f, pc, pc + |g.code|, pc + |g.code| + 1);
  }

  lemma StackHere(t: Typed, f: nat, pc: nat, code: seq<Instr>, tys: seq<seq<Type>>)
    requires Sits(t, f, pc, code, tys) && code != []
    ensures StackAt(t, f, pc, tys[0])
  {
    SitsFirst(t, f, pc, code, tys);
  }

  lemma BinaryShape(fp: Float, e: Expr, a: Expr, b: Expr, i: Instr, pool: Pool, base: seq<Type>)
    requires (e == Index(a, b) && i == OpALoad) || (e.Bin? && a == e.a && b == e.b && i == OpBin(e.op))
    ensures var g := GenE(fp, a, pool);
            var h := GenE(fp, b, g.pool);
            GenE(fp, e, pool) == Gen(g.code + h.code + [i], h.pool)
    ensures TypesE(e, base) ==
            TypesE(a, base) + TypesE(b, base + [TypeOf(a)]) + [base + [TypeOf(a), TypeOf(b)]]
  {
    hide OkE, TypesArgs, Compile.GenArgs;
    if e.Index? {
      assert GenE(fp, Index(a, b), pool) == Gen(GenE(fp, a, pool).code + GenE(fp, b, GenE(fp, a, pool).pool).code + [i],
                                                GenE(fp, b, GenE(fp, a, pool).pool).pool);
    } else {
      assert GenE(fp, Bin(e.op, a, b, e.ty), pool) ==
             Gen(GenE(fp, a, pool).code + GenE(fp, b, GenE(fp, a, pool).pool).code + [i],
                 GenE(fp, b, GenE(fp, a, pool).pool).pool);
    }
  }

  /** Where the parts of a two-operand expression stand. */
  lemma BinaryParts(strict: bool, t: Typed, f: nat, fp: Float, e: Expr, a: Expr, b: Expr, i: Instr, pool: Pool,
                    pc: nat, base: seq<Type>)
    requires Here(strict, t, f, fp, e, pool, pc, base)
    requires (e == Index(a, b) && i == OpALoad) || (e.Bin? && a == e.a && b == e.b && i == OpBin(e.op))
    ensures var g := GenE(fp, a, pool);
            var h := GenE(fp, b, g.pool);
            var two, out := base + [TypeOf(a), TypeOf(b)], base + [TypeOf(e)];
            var pcI := pc + |g.code| + |h.code|;
            && |GenE(fp, e, pool).code| == |g.code| + |h.code| + 1
            && g.pool <= t.image.consts && h.pool <= t.image.consts
            && Sits(t, f, pc, g.code, TypesE(a, base))
            && Sits(t, f, pc + |g.code|, h.code, TypesE(b, base + [TypeOf(a)]))
            && Sits(t, f, pcI, [i], [two]) && StackAt(t, f, pcI + 1, out)
  {
    hide Sits, StackAt, OkE, Compile.GenE, TypesE;
    BinaryShape(fp, e, a, b, i, pool, base);
    var g := GenE(fp, a, pool);
    var h := GenE(fp, b, g.pool);
    var one, two := base + [TypeOf(a)], base + [TypeOf(a), TypeOf(b)];
    TypesLength(fp, a, pool, base);
    TypesLength(fp, b, g.pool, one);
    var ta, tb := TypesE(a, base), TypesE(b, one);
    SitsSplit(t, f, pc, g.code + h.code, [i], ta + tb, [two]);
    SitsSplit(t, f, pc, g.code, h.code, ta, tb);
  }

  lemma BinaryMoves(strict: bool, t: Typed, f: nat, e: Expr, a: Expr, b: Expr, i: Instr, base: seq<Type>)
    requires (e == Index(a, b) && i == OpALoad) || (e.Bin? && a == e.a && b == e.b && i == OpBin(e.op))
    requires strict ==> f < |t.fts| && OkE(t.fts, t.fts[f].slots, e)
    ensures Moves(strict, t, f, i, base + [TypeOf(a), TypeOf(b)], base + [TypeOf(e)])
    ensures strict ==> OkE(t.fts, t.fts[f].slots, a) && OkE(t.fts, t.fts[f].slots, b)
  {
    var two, out := base + [TypeOf(a), TypeOf(b)], base + [TypeOf(e)];
    assert two[..|base|] == base == out[..|base|];
  }

  lemma {:induction false} TypedBinary(strict: bool, t: Typed, f: nat, fp: Float, e: Expr, a: Expr, b: Expr, i: Instr,
                                       pool: Pool, pc: nat, base: seq<Type>)
    requires Here(strict, t, f, fp, e, pool, pc, base)
    requires (e == Index(a, b) && i == OpALoad) || (e.Bin? && a == e.a && b == e.b && i == OpBin(e.op))
    ensures Flows(strict, t, f, pc, pc + |GenE(fp, e, pool).code|)
    decreases e, 2
  {
    hide Sits, Flows, StackAt, Moves, Compile.GenE, TypesE, OkE;
    BinaryParts(strict, t, f, fp, e, a, b, i, pool, pc, base);
    BinaryMoves(strict, t, f, e, a, b, i, base);
    var g := GenE(fp, a, pool);
    var h := GenE(fp, b, g.pool);
    var one := base + [TypeOf(a)];
    var two, out := base + [TypeOf(a), TypeOf(b)], base + [TypeOf(e)];
    var pcB := pc + |g.code|;
    var pcI := pcB + |h.code|;
    StackHere(t, f, pcB, h.code, TypesE(b, one));
    StackHere(t, f, pcI, [i], [two]);
    assert two == one + [TypeOf(b)];
    TypedE(strict, t, f, fp, a, pool, pc, base);
    TypedE(strict, t, f, fp, b, g.pool, pcB, one);
    FlowOne(strict, t, f, pcI, i, two, out);
    FlowsJoin(strict, t, f, pc, pcB, pcI);
    FlowsJoin(strict, t, f, pc, pcI, pcI + 1);
  }

  lemma {:induction false} TypedCall(strict: bool, t: Typed, f: nat, fp: Float, e: Expr, pool: Pool, pc: nat,
                                     base: seq<Type>)
    requires Here(strict, t, f, fp, e, pool, pc, base) && e.Call?
    ensures Flows(strict, t, f, pc, pc + |GenE(fp, e, pool).code|)
    decreases e, 2
  {
    hide Sits, Flows, StackAt;
    var g := GenArgs(fp, e.args, pool);
    var i := OpCall(e.f, |e.args|);
    var mid, out := base + ArgTypes(e.args), base + [TypeOf(e)];
    TypesLengthArgs(fp, e.args, pool, base);
    SitsSplit(t, f, pc, g.code, [i], TypesArgs(e.args, base), [mid]);
    StackHere(t, f, pc + |g.code|, [i], [mid]);
    TypedArgs(strict, t, f, fp, e.args, pool, pc, base);
    assert mid[..|base|] == base == out[..|base|];
    assert mid[|base|..] == ArgTypes(e.args);
    FlowOne(strict, t, f, pc + |g.code|, i, mid, out);
    FlowsJoin(strict, t, f, pc, pc + |g.code|, pc + |g.code| + 1);
  }

  lemma NoFlow(strict: bool, t: Typed, f: nat, pc: nat)
    requires Sits(t, f, pc, [], []) && (strict ==> f < |t.fts|)
    ensures Flows(strict, t, f, pc, pc)
  {
  }

  lemma {:induction false} TypedArgs(strict: bool, t: Typed, f: nat, fp: Float, es: seq<Expr>, pool: Pool, pc: nat,
                                     base: seq<Type>)
    requires var g := GenArgs(fp, es, pool);
             && g.pool <= t.image.consts && Sits(t, f, pc, g.code, TypesArgs(es, base))
             && StackAt(t, f, pc + |g.code|, base + ArgTypes(es))
    requires strict ==> f < |t.fts| && OkArgs(t.fts, t.fts[f].slots, es)
    ensures Flows(strict, t, f, pc, pc + |GenArgs(fp, es, pool).code|)
    decreases es, 0
  {
    hide FlowOk, Sits, StackAt, Flows, Compile.GenE, TypesE, OkE;
    if es == [] {
      NoFlow(strict, t, f, pc);
    } else {
      var g := GenE(fp, es[0], pool);
      var h := GenArgs(fp, es[1..], g.pool);
      var one := base + [TypeOf(es[0])];
      TypesLength(fp, es[0], pool, base);
      TypesLengthArgs(fp, es[1..], g.pool, one);
      SitsSplit(t, f, pc, g.code, h.code, TypesE(es[0], base), TypesArgs(es[1..], one));
      assert base + ArgTypes(es) == one + ArgTypes(es[1..]);
      if es[1..] == [] {
        assert one == base + ArgTypes(es);
      } else {
        StackHere(t, f, pc + |g.code|, h.code, TypesArgs(es[1..], one));
      }
      TypedE(strict, t, f, fp, es[0], pool, pc, base);
      TypedArgs(strict, t, f, fp, es[1..], g.pool, pc + |g.code|, one);
      FlowsJoin(strict, t, f, pc, pc + |g.code|, pc + |g.code| + |h.code|);
    }
  }

  // ----- statements -----

  lemma {:induction false} TypesLengthS(fp: Float, st: Stmt, pc: nat, pool: Pool, ret: Type)
    ensures |TypesS(st, ret)| == |GenS(fp, st, pc, pool).code|
    decreases st, 1
  {
    if st.Block? { TypesLengthBlock(fp, st, pc, pool, ret); }
    else if st.If? { TypesLengthIf(fp, st, pc, pool, ret); }
    else if st.While? { TypesLengthWhile(fp, st, pc, pool, ret); }
    else if st.AssignIndex? { TypesLengthStore(fp, st, pc, pool, ret); }
    else { TypesLengthSimple(fp, st, pc, pool, ret); }
  }

  lemma {:induction false} TypesLengthBlock(fp: Float, st: Stmt, pc: nat, pool: Pool, ret: Type)
    requires st.Block?
    ensures |TypesS(st, ret)| == |GenS(fp, st, pc, pool).code|
    decreases st, 0
  {
    hide Compile.GenSeq, TypesSeq;
    TypesLengthSeq(fp, st.body, pc, pool, ret);
  }

  lemma {:induction false} TypesLengthIf(fp: Float, st: Stmt, pc: nat, pool: Pool, ret: Type)
    requires st.If?
    ensures |TypesS(st, ret)| == |GenS(fp, st, pc, pool).code|
    decreases st, 0
  {
    hide Compile.GenE, TypesE, Compile.GenSeq, TypesSeq;
    TypesLength(fp, st.cond, pool, []);
    var g := GenE(fp, st.cond, pool);
    var p := pc + |g.code| + 1;
    TypesLengthS(fp, st.thn, p, g.pool, ret);
    if st.els.Some? {
      hide Compile.GenS, TypesS;
      IfElseShape(fp, st, pool, pc, ret);
      var t := GenS(fp, st.thn, p, g.pool);
      TypesLengthS(fp, st.els.value, p + |t.code| + 1, t.pool, ret);
    }
  }

  lemma {:induction false} TypesLengthWhile(fp: Float, st: Stmt, pc: nat, pool: Pool, ret: Type)
    requires st.While?
    ensures |TypesS(st, ret)| == |GenS(fp, st, pc, pool).code|
    decreases st, 0
  {
    hide Compile.GenS, TypesS, Compile.GenE, TypesE;
    WhileShape(fp, st, pool, pc, ret);
    TypesLength(fp, st.cond, pool, []);
    var g := GenE(fp, st.cond, pool);
    TypesLengthS(fp, st.body1, pc + |g.code| + 1, g.pool, ret);
  }

  lemma TypesLengthStore(fp: Float, st: Stmt, pc: nat, pool: Pool, ret: Type)
    requires st.AssignIndex?
    ensures |TypesS(st, ret)| == |GenS(fp, st, pc, pool).code|
  {
    hide Compile.GenE, TypesE;
    var g := GenE(fp, st.arr, pool);
    var h := GenE(fp, st.idx, g.pool);
    TypesLength(fp, st.arr, pool, []);
    TypesLength(fp, st.idx, g.pool, [TypeOf(st.arr)]);
    TypesLength(fp, st.e, h.pool, [TypeOf(st.arr), TypeOf(st.idx)]);
  }

  lemma TypesLengthSimple(fp: Float, st: Stmt, pc: nat, pool: Pool, ret: Type)
    requires !st.Block? && !st.If? && !st.While? && !st.AssignIndex?
    ensures |TypesS(st, ret)| == |GenS(fp, st, pc, pool).code|
  {
    hide Compile.GenE, TypesE;
    match st
    case DeclArray(_, _, e) => TypesLength(fp, e, pool, []);
    case Decl(_, _, init) => if init.Some? { TypesLength(fp, init.value, pool, []); }
    case Assign(_, e) => TypesLength(fp, e, pool, []);
    case Return(value) => if value.Some? { TypesLength(fp, value.value, pool, []); }
    case ExprStmt(e) => TypesLength(fp, e, pool, []);
    case Print(e) => TypesLength(fp, e, pool, []);
  }

  lemma {:induction false} TypesLengthSeq(fp: Float, ss: seq<Stmt>, pc: nat, pool: Pool, ret: Type)
    ensures |TypesSeq(ss, ret)| == |GenSeq(fp, ss, pc, pool).code|
    decreases ss, 0
  {
    hide Compile.GenS, TypesS;
    if ss != [] {
      var g := GenS(fp, ss[0], pc, pool);
      TypesLengthS(fp, ss[0], pc, pool, ret);
      TypesLengthSeq(fp, ss[1..], pc + |g.code|, g.pool, ret);
    }
  }

  /** What every lemma about a statement assumes: the stack is empty before and after it. */
  ghost predicate HereS(strict: bool, t: Typed, f: nat, fp: Float, st: Stmt, pool: Pool, pc: nat) {
    f < |t.fts| &&
    var g := GenS(fp, st, pc, pool);
    && g.pool <= t.image.consts && Sits(t, f, pc, g.code, TypesS(st, t.fts[f].ret))
    && StackAt(t, f, pc + |g.code|, [])
    && (strict ==> OkS(t.fts, t.fts[f].slots, t.fts[f].ret, st))
  }

  /** The static stack is empty where code of a statement begins, even if it has no instruction. */
  lemma StartsEmpty(t: Typed, f: nat, pc: nat, code: seq<Instr>, tys: seq<seq<Type>>)
    requires Sits(t, f, pc, code, tys) && StackAt(t, f, pc + |code|, []) && (tys != [] ==> tys[0] == [])
    ensures StackAt(t, f, pc, [])
  {
    if code != [] { SitsFirst(t, f, pc, code, tys); }
  }

  /** An expression and one instruction that consumes it: the shape of most statements. */
  lemma TypedThen(strict: bool, t: Typed, f: nat, fp: Float, e: Expr, pool: Pool, pc: nat, i: Instr)
    requires f < |t.fts|
    requires var g := GenE(fp, e, pool);
             && g.pool <= t.image.consts && Sits(t, f, pc, g.code + [i], TypesE(e, []) + [[TypeOf(e)]])
             && StackAt(t, f, pc + |g.code| + 1, [])
    requires strict ==> OkE(t.fts, t.fts[f].slots, e)
    requires i.OpStoreL? || i.OpPop? || i.OpPrint? || i.OpRet?
    requires strict ==> match i
                        case OpStoreL(slot) => slot < |t.fts[f].slots| && TypeOf(e) == t.fts[f].slots[slot]
                        case OpRet => TypeOf(e) == t.fts[f].ret
                        case OpPrint => !IsArray(TypeOf(e))
                        case _ => true
    ensures Flows(strict, t, f, pc, pc + |GenE(fp, e, pool).code| + 1)
  {
    hide Sits, StackAt, Flows, Compile.GenE, TypesE, OkE;
    var g := GenE(fp, e, pool);
    TypesLength(fp, e, pool, []);
    SitsSplit(t, f, pc, g.code, [i], TypesE(e, []), [[TypeOf(e)]]);
    StackHere(t, f, pc + |g.code|, [i], [[TypeOf(e)]]);
    assert [] + [TypeOf(e)] == [TypeOf(e)];
    TypedE(strict, t, f, fp, e, pool, pc, []);
    FlowSink(strict, t, f, pc + |g.code|, i, TypeOf(e));
    FlowsJoin(strict, t, f, pc, pc + |g.code|, pc + |g.code| + 1);
  }

  /** One instruction that empties a stack of one. */
  lemma FlowSink(strict: bool, t: Typed, f: nat, pc: nat, i: Instr, ty: Type)
    requires Sits(t, f, pc, [i], [[ty]]) && f < |t.fts| && StackAt(t, f, pc + 1, [])
    requires i.OpStoreL? || i.OpPop? || i.OpPrint? || i.OpRet?
    requires strict ==> match i
                        case OpStoreL(slot) => slot < |t.fts[f].slots| && ty == t.fts[f].slots[slot]
                        case OpRet => ty == t.fts[f].ret
                        case OpPrint => !IsArray(ty)
                        case _ => true
    ensures Flows(strict, t, f, pc, pc + 1)
  {
    SitsFirst(t, f, pc, [i], [[ty]]);
  }

  /** One instruction that puts one value on the empty stack. */
  lemma FlowSource(strict: bool, t: Typed, f: nat, pc: nat, i: Instr, ty: Type)
    requires Sits(t, f, pc, [i], [[]]) && f < |t.fts| && StackAt(t, f, pc + 1, [ty])
    requires i == OpPushI(0) || (i.OpPushC? && i.k < |t.image.consts| && t.image.consts[i.k].CDbl? && ty.TDouble?)
    ensures Flows(strict, t, f, pc, pc + 1)
  {
    SitsFirst(t, f, pc, [i], [[]]);
  }

  lemma {:induction false} TypedS(strict: bool, t: Typed, f: nat, fp: Float, st: Stmt, pool: Pool, pc: nat)
    requires HereS(strict, t, f, fp, st, pool, pc)
    ensures Flows(strict, t, f, pc, pc + |GenS(fp, st, pc, pool).code|)
    decreases st, 1
  {
    hide Sits, Flows, StackAt, Compile.GenE, TypesE, OkE, HereS;
    match st
    case Block(body) => TypedBlock(strict, t, f, fp, st, pool, pc);
    case If(_, _, els) =>
      if els.None? {
        TypedIfThen(strict, t, f, fp, st, pool, pc);
      } else {
        TypedIfElse(strict, t, f, fp, st, pool, pc);
      }
    case While(_, _) => TypedWhile(strict, t, f, fp, st, pool, pc);
    case DeclArray(_, _, _) => TypedDeclArray(strict, t, f, fp, st, pool, pc);
    case AssignIndex(_, _, _) => TypedStore(strict, t, f, fp, st, pool, pc);
    case _ => TypedSimple(strict, t, f, fp, st, pool, pc);
  }

  lemma TypedSimple(strict: bool, t: Typed, f: nat, fp: Float, st: Stmt, pool: Pool, pc: nat)
    requires HereS(strict, t, f, fp, st, pool, pc)
    requires st.Decl? || st.Assign? || st.Return? || st.ExprStmt? || st.Print?
    ensures Flows(strict, t, f, pc, pc + |GenS(fp, st, pc, pool).code|)
  {
    hide Sits, Flows, StackAt, Compile.GenE, TypesE, OkE;
    match st
    case Decl(ty, slot, init) =>
      if init.Some? {
        TypedThen(strict, t, f, fp, init.value, pool, pc, OpStoreL(slot));
      } else {
        TypedZero(strict, t, f, fp, ty, OpStoreL(slot), pool, pc);
      }
    case Assign(slot, e) => TypedThen(strict, t, f, fp, e, pool, pc, OpStoreL(slot));
    case Return(value) =>
      if value.Some? {
        TypedThen(strict, t, f, fp, value.value, pool, pc, OpRet);
      } else {
        TypedReturnZero(strict, t, f, pc);
      }
    case ExprStmt(e) => TypedThen(strict, t, f, fp, e, pool, pc, OpPop);
    case Print(e) => TypedThen(strict, t, f, fp, e, pool, pc, OpPrint);
  }

  /** A declaration without initialiser. */
  lemma TypedZero(strict: bool, t: Typed, f: nat, fp: Float, ty: Type, i: Instr, pool: Pool, pc: nat)
    requires f < |t.fts| && i.OpStoreL?
    requires var g := GenInit(fp, ty, None, pool);
             && g.pool <= t.image.consts && Sits(t, f, pc, g.code + [i], [[], [ty]]) && StackAt(t, f, pc + 2, [])
    requires strict ==> i.slot < |t.fts[f].slots| && ty == t.fts[f].slots[i.slot]
    ensures Flows(strict, t, f, pc, pc + 2)
  {
    hide Sits, Flows, StackAt;
    var g := GenInit(fp, ty, None, pool);
    assert [[], [ty]] == [[]] + [[ty]];
    SitsSplit(t, f, pc, g.code, [i], [[]], [[ty]]);
    StackHere(t, f, pc + 1, [i], [[ty]]);
    PushedConst(fp, pool, CDbl(0));
    FlowSource(strict, t, f, pc, g.code[0], ty);
    FlowSink(strict, t, f, pc + 1, i, ty);
    FlowsJoin(strict, t, f, pc, pc + 1, pc + 2);
  }

  /** Returning 0, also the safety net behind every function. */
  lemma TypedReturnZero(strict: bool, t: Typed, f: nat, pc: nat)
    requires f < |t.fts| && Sits(t, f, pc, [OpPushI(0), OpRet], [[], [t.fts[f].ret]])
    ensures Flows(strict, t, f, pc, pc + 2)
  {
    hide Sits, Flows, StackAt;
    var ty := t.fts[f].ret;
    assert [[], [ty]] == [[]] + [[ty]] && [OpPushI(0), OpRet] == [OpPushI(0)] + [OpRet];
    SitsSplit(t, f, pc, [OpPushI(0)], [OpRet], [[]], [[ty]]);
    StackHere(t, f, pc + 1, [OpRet], [[ty]]);
    FlowSource(strict, t, f, pc, OpPushI(0), ty);
    FlowRet(strict, t, f, pc + 1);
    FlowsJoin(strict, t, f, pc, pc + 1, pc + 2);
  }

  lemma FlowRet(strict: bool, t: Typed, f: nat, pc: nat)
    requires f < |t.fts| && Sits(t, f, pc, [OpRet], [[t.fts[f].ret]])
    ensures Flows(strict, t, f, pc, pc + 1)
  {
    SitsFirst(t, f, pc, [OpRet], [[t.fts[f].ret]]);
  }

  lemma TypedDeclArray(strict: bool, t: Typed, f: nat, fp: Float, st: Stmt, pool: Pool, pc: nat)
    requires HereS(strict, t, f, fp, st, pool, pc) && st.DeclArray?
    ensures Flows(strict, t, f, pc, pc + |GenS(fp, st, pc, pool).code|)
  {
    hide Sits, Flows, StackAt, Compile.GenE, TypesE, OkE;
    var g := GenE(fp, st.len, pool);
    var p := pc + |g.code|;
    var ty, arr := TypeOf(st.len), ArrayOf(st.elem);
    TypesLength(fp, st.len, pool, []);
    assert [[ty], [arr]] == [[ty]] + [[arr]] && [OpNewArr, OpStoreL(st.slot)] == [OpNewArr] + [OpStoreL(st.slot)];
    SitsSplit(t, f, pc, g.code, [OpNewArr, OpStoreL(st.slot)], TypesE(st.len, []), [[ty], [arr]]);
    SitsSplit(t, f, p, [OpNewArr], [OpStoreL(st.slot)], [[ty]], [[arr]]);
    StackHere(t, f, p, [OpNewArr], [[ty]]);
    StackHere(t, f, p + 1, [OpStoreL(st.slot)], [[arr]]);
    assert [] + [ty] == [ty];
    TypedE(strict, t, f, fp, st.len, pool, pc, []);
    FlowOne(strict, t, f, p, OpNewArr, [ty], [arr]);
    FlowSink(strict, t, f, p + 1, OpStoreL(st.slot), arr);
    FlowsJoin(strict, t, f, pc, p, p + 1);
    FlowsJoin(strict, t, f, pc, p + 1, p + 2);
  }

  lemma TypedStore(strict: bool, t: Typed, f: nat, fp: Float, st: Stmt, pool: Pool, pc: nat)
    requires HereS(strict, t, f, fp, st, pool, pc) && st.AssignIndex?
    ensures Flows(strict, t, f, pc, pc + |GenS(fp, st, pc, pool).code|)
  {
    hide Sits, Flows, StackAt, Compile.GenE, TypesE, OkE;
    var a, i, e := st.arr, st.idx, st.e;
    var g := GenE(fp, a, pool);
    var h := GenE(fp, i, g.pool);
    var v := GenE(fp, e, h.pool);
    var one, two, three := [TypeOf(a)], [TypeOf(a), TypeOf(i)], [TypeOf(a), TypeOf(i), TypeOf(e)];
    TypesLength(fp, a, pool, []);
    TypesLength(fp, i, g.pool, one);
    TypesLength(fp, e, h.pool, two);
    var ta, tb, tc := TypesE(a, []), TypesE(i, one), TypesE(e, two);
    SitsSplit(t, f, pc, g.code + h.code + v.code, [OpAStore], ta + tb + tc, [three]);
    SitsSplit(t, f, pc, g.code + h.code, v.code, ta + tb, tc);
    SitsSplit(t, f, pc, g.code, h.code, ta, tb);
    var p1 := pc + |g.code|;
    var p2 := p1 + |h.code|;
    var p3 := p2 + |v.code|;
    StackHere(t, f, p1, h.code, tb);
    StackHere(t, f, p2, v.code, tc);
    StackHere(t, f, p3, [OpAStore], [three]);
    assert [] + [TypeOf(a)] == one && one + [TypeOf(i)] == two && two + [TypeOf(e)] == three;
    TypedE(strict, t, f, fp, a, pool, pc, []);
    TypedE(strict, t, f, fp, i, g.pool, p1, one);
    TypedE(strict, t, f, fp, e, h.pool, p2, two);
    FlowOne(strict, t, f, p3, OpAStore, three, []);
    FlowsJoin(strict, t, f, pc, p1, p2);
    FlowsJoin(strict, t, f, pc, p2, p3);
    FlowsJoin(strict, t, f, pc, p3, p3 + 1);
  }

  /** A conditional jump whose target begins on an empty stack. */
  lemma FlowJz(strict: bool, t: Typed, f: nat, pc: nat, target: nat, ty: Type)
    requires f < |t.fts| && Sits(t, f, pc, [OpJz(target)], [[ty]])
    requires StackAt(t, f, pc + 1, []) && StackAt(t, f, target, []) && (strict ==> ty == TInt)
    ensures Flows(strict, t, f, pc, pc + 1)
  {
    SitsFirst(t, f, pc, [OpJz(target)], [[ty]]);
  }

  lemma FlowJmp(strict: bool, t: Typed, f: nat, pc: nat, target: nat)
    requires f < |t.fts| && Sits(t, f, pc, [OpJmp(target)], [[]]) && StackAt(t, f, target, [])
    ensures Flows(strict, t, f, pc, pc + 1)
  {
    SitsFirst(t, f, pc, [OpJmp(target)], [[]]);
  }

  lemma {:induction false} TypedBlock(strict: bool, t: Typed, f: nat, fp: Float, st: Stmt, pool: Pool, pc: nat)
    requires HereS(strict, t, f, fp, st, pool, pc) && st.Block?
    ensures Flows(strict, t, f, pc, pc + |GenS(fp, st, pc, pool).code|)
    decreases st, 0
  {
    hide Sits, Flows, StackAt, Compile.GenSeq, TypesSeq, OkSeq;
    TypedSeq(strict, t, f, fp, st.body, pool, pc);
  }

  /** What a list of statements assumes. */
  ghost predicate HereSeq(strict: bool, t: Typed, f: nat, fp: Float, ss: seq<Stmt>, pool: Pool, pc: nat) {
    f < |t.fts| &&
    var g := GenSeq(fp, ss, pc, pool);
    && g.pool <= t.image.consts && Sits(t, f, pc, g.code, TypesSeq(ss, t.fts[f].ret))
    && StackAt(t, f, pc + |g.code|, [])
    && (strict ==> OkSeq(t.fts, t.fts[f].slots, t.fts[f].ret, ss))
  }

  lemma SeqShape(fp: Float, ss: seq<Stmt>, pool: Pool, pc: nat, ret: Type)
    requires ss != []
    ensures var g := GenS(fp, ss[0], pc, pool);
            var h := GenSeq(fp, ss[1..], pc + |g.code|, g.pool);
            GenSeq(fp, ss, pc, pool) == Gen(g.code + h.code, h.pool)
    ensures TypesSeq(ss, ret) == TypesS(ss[0], ret) + TypesSeq(ss[1..], ret)
  {
    hide Compile.GenS, TypesS;
  }

  lemma SeqParts(strict: bool, t: Typed, f: nat, fp: Float, ss: seq<Stmt>, pool: Pool, pc: nat)
    requires HereSeq(strict, t, f, fp, ss, pool, pc) && ss != []
    ensures var g := GenS(fp, ss[0], pc, pool);
            var p := pc + |g.code|;
            && HereS(strict, t, f, fp, ss[0], pool, pc) && HereSeq(strict, t, f, fp, ss[1..], g.pool, p)
            && pc + |GenSeq(fp, ss, pc, pool).code| == p + |GenSeq(fp, ss[1..], p, g.pool).code|
  {
    hide Sits, StackAt, Compile.GenS, TypesS, OkS, Compile.GenSeq, TypesSeq;
    var ret := t.fts[f].ret;
    SeqShape(fp, ss, pool, pc, ret);
    var g := GenS(fp, ss[0], pc, pool);
    var p := pc + |g.code|;
    var h := GenSeq(fp, ss[1..], p, g.pool);
    TypesLengthS(fp, ss[0], pc, pool, ret);
    TypesLengthSeq(fp, ss[1..], p, g.pool, ret);
    SitsSplit(t, f, pc, g.code, h.code, TypesS(ss[0], ret), TypesSeq(ss[1..], ret));
    StartsEmpty(t, f, p, h.code, TypesSeq(ss[1..], ret));
  }

  lemma {:induction false} TypedSeq(strict: bool, t: Typed, f: nat, fp: Float, ss: seq<Stmt>, pool: Pool, pc: nat)
    requires HereSeq(strict, t, f, fp, ss, pool, pc)
    ensures Flows(strict, t, f, pc, pc + |GenSeq(fp, ss, pc, pool).code|)
    decreases ss, 0
  {
    hide Sits, Flows, StackAt, Compile.GenS, TypesS, OkS, HereS;
    if ss == [] {
      NoFlow(strict, t, f, pc);
    } else {
      hide HereSeq, Compile.GenSeq, TypesSeq, OkSeq;
      SeqParts(strict, t, f, fp, ss, pool, pc);
      var g := GenS(fp, ss[0], pc, pool);
      var p := pc + |g.code|;
      TypedS(strict, t, f, fp, ss[0], pool, pc);
      TypedSeq(strict, t, f, fp, ss[1..], g.pool, p);
      FlowsJoin(strict, t, f, pc, p, p + |GenSeq(fp, ss[1..], p, g.pool).code|);
    }
  }

  /** A condition and the jump behind it. */
  lemma TypedCond(strict: bool, t: Typed, f: nat, fp: Float, c: Expr, pool: Pool, pc: nat, target: nat)
    requires f < |t.fts|
    requires var g := GenE(fp, c, pool);
             && g.pool <= t.image.consts && Sits(t, f, pc, g.code + [OpJz(target)], TypesE(c, []) + [[TypeOf(c)]])
             && StackAt(t, f, pc + |g.code| + 1, []) && StackAt(t, f, target, [])
    requires strict ==> OkE(t.fts, t.fts[f].slots, c) && TypeOf(c) == TInt
    ensures Flows(strict, t, f, pc, pc + |GenE(fp, c, pool).code| + 1)
  {
    hide Sits, StackAt, Flows, Compile.GenE, TypesE, OkE;
    var g := GenE(fp, c, pool);
    var i := OpJz(target);
    TypesLength(fp, c, pool, []);
    SitsSplit(t, f, pc, g.code, [i], TypesE(c, []), [[TypeOf(c)]]);
    StackHere(t, f, pc + |g.code|, [i], [[TypeOf(c)]]);
    assert [] + [TypeOf(c)] == [TypeOf(c)];
    TypedE(strict, t, f, fp, c, pool, pc, []);
    FlowJz(strict, t, f, pc + |g.code|, target, TypeOf(c));
    FlowsJoin(strict, t, f, pc, pc + |g.code|, pc + |g.code| + 1);
  }

  lemma {:induction false} TypedIfThen(strict: bool, t: Typed, f: nat, fp: Float, st: Stmt, pool: Pool, pc: nat)
    requires HereS(strict, t, f, fp, st, pool, pc) && st.If? && st.els.None?
    ensures Flows(strict, t, f, pc, pc + |GenS(fp, st, pc, pool).code|)
    decreases st, 0
  {
    hide Sits, Flows, StackAt, Compile.GenE, TypesE, OkE;
    var c, thn, ret := st.cond, st.thn, t.fts[f].ret;
    var g := GenE(fp, c, pool);
    var p := pc + |g.code| + 1;
    var b := GenS(fp, thn, p, g.pool);
    var end := p + |b.code|;
    var tc := TypesE(c, []) + [[TypeOf(c)]];
    TypesLength(fp, c, pool, []);
    TypesLengthS(fp, thn, p, g.pool, ret);
    SitsSplit(t, f, pc, g.code + [OpJz(end)], b.code, tc, TypesS(thn, ret));
    StartsEmpty(t, f, p, b.code, TypesS(thn, ret));
    TypedCond(strict, t, f, fp, c, pool, pc, end);
    TypedS(strict, t, f, fp, thn, g.pool, p);
    FlowsJoin(strict, t, f, pc, p, end);
  }

  lemma IfElseShape(fp: Float, st: Stmt, pool: Pool, pc: nat, ret: Type)
    requires st.If? && st.els.Some?
    ensures var g := GenE(fp, st.cond, pool);
            var p := pc + |g.code| + 1;
            var b := GenS(fp, st.thn, p, g.pool);
            var other := p + |b.code| + 1;
            var e := GenS(fp, st.els.value, other, b.pool);
            GenS(fp, st, pc, pool) ==
            Gen(g.code + [OpJz(other)] + b.code + [OpJmp(other + |e.code|)] + e.code, e.pool)
    ensures TypesS(st, ret) ==
            TypesE(st.cond, []) + [[TypeOf(st.cond)]] + TypesS(st.thn, ret) + [[]] + TypesS(st.els.value, ret)
  {
    hide Compile.GenE, TypesE, Compile.GenSeq, TypesSeq;
  }

  lemma IfElseOk(fts: seq<FType>, slots: seq<Type>, ret: Type, st: Stmt)
    requires st.If? && st.els.Some? && OkS(fts, slots, ret, st)
    ensures OkE(fts, slots, st.cond) && TypeOf(st.cond) == TInt && OkS(fts, slots, ret, st.thn)
            && OkS(fts, slots, ret, st.els.value)
  {
    hide OkE;
  }

  /** Where the parts of a two-way conditional stand. */
  lemma IfElseParts(strict: bool, t: Typed, f: nat, fp: Float, st: Stmt, pool: Pool, pc: nat)
    requires HereS(strict, t, f, fp, st, pool, pc) && st.If? && st.els.Some?
    ensures var g := GenE(fp, st.cond, pool);
            var p := pc + |g.code| + 1;
            var b := GenS(fp, st.thn, p, g.pool);
            var other := p + |b.code| + 1;
            var e := GenS(fp, st.els.value, other, b.pool);
            var end := other + |e.code|;
            && end == pc + |GenS(fp, st, pc, pool).code| && g.pool <= t.image.consts
            && Sits(t, f, pc, g.code + [OpJz(other)], TypesE(st.cond, []) + [[TypeOf(st.cond)]])
            && StackAt(t, f, p, []) && StackAt(t, f, other, []) && StackAt(t, f, end, [])
            && HereS(strict, t, f, fp, st.thn, g.pool, p) && HereS(strict, t, f, fp, st.els.value, b.pool, other)
            && Sits(t, f, p + |b.code|, [OpJmp(end)], [[]])
  {
    hide Sits, StackAt, Compile.GenE, TypesE, OkE, Compile.GenS, TypesS, OkS;
    IfElseShape(fp, st, pool, pc, t.fts[f].ret);
    if strict { IfElseOk(t.fts, t.fts[f].slots, t.fts[f].ret, st); }
    var c, thn, els, ret := st.cond, st.thn, st.els.value, t.fts[f].ret;
    var g := GenE(fp, c, pool);
    var p := pc + |g.code| + 1;
    var b := GenS(fp, thn, p, g.pool);
    var other := p + |b.code| + 1;
    var e := GenS(fp, els, other, b.pool);
    var end := other + |e.code|;
    var tc := TypesE(c, []) + [[TypeOf(c)]];
    TypesLength(fp, c, pool, []);
    TypesLengthS(fp, thn, p, g.pool, ret);
    TypesLengthS(fp, els, other, b.pool, ret);
    BranchesSit(t, f, pc, g.code + [OpJz(other)], b.code, OpJmp(end), e.code, tc, TypesS(thn, ret), TypesS(els, ret));
  }

  /** Four stretches of code in a row: a condition, two branches, and the jump between them. */
  lemma BranchesSit(t: Typed, f: nat, pc: nat, first: seq<Instr>, thn: seq<Instr>, jmp: Instr, els: seq<Instr>,
                    tc: seq<seq<Type>>, tt: seq<seq<Type>>, te: seq<seq<Type>>)
    requires Sits(t, f, pc, first + thn + [jmp] + els, tc + tt + [[]] + te)
    requires |first| == |tc| && |thn| == |tt| && |els| == |te|
    requires (tt != [] ==> tt[0] == []) && (te != [] ==> te[0] == [])
    requires StackAt(t, f, pc + |first| + |thn| + 1 + |els|, [])
    ensures var p := pc + |first|;
            var other := p + |thn| + 1;
            && Sits(t, f, pc, first, tc) && Sits(t, f, p, thn, tt) && Sits(t, f, p + |thn|, [jmp], [[]])
            && Sits(t, f, other, els, te)
            && StackAt(t, f, p, []) && StackAt(t, f, p + |thn|, []) && StackAt(t, f, other, [])
  {
    hide Sits, StackAt;
    var p := pc + |first|;
    SitsSplit(t, f, pc, first + thn + [jmp], els, tc + tt + [[]], te);
    SitsSplit(t, f, pc, first + thn, [jmp], tc + tt, [[]]);
    SitsSplit(t, f, pc, first, thn, tc, tt);
    StackHere(t, f, p + |thn|, [jmp], [[]]);
    StartsEmpty(t, f, p, thn, tt);
    StartsEmpty(t, f, p + |thn| + 1, els, te);
  }

  lemma {:induction false} TypedIfElse(strict: bool, t: Typed, f: nat, fp: Float, st: Stmt, pool: Pool, pc: nat)
    requires HereS(strict, t, f, fp, st, pool, pc) && st.If? && st.els.Some?
    ensures Flows(strict, t, f, pc, pc + |GenS(fp, st, pc, pool).code|)
    decreases st, 0
  {
    hide *;
    IfElseParts(strict, t, f, fp, st, pool, pc);
    CondTyped(strict, t, f, fp, st, pool, pc);
    var c, thn, els := st.cond, st.thn, st.els.value;
    var g := GenE(fp, c, pool);
    var p := pc + |g.code| + 1;
    var b := GenS(fp, thn, p, g.pool);
    var other := p + |b.code| + 1;
    var end := other + |GenS(fp, els, other, b.pool).code|;
    TypedCond(strict, t, f, fp, c, pool, pc, other);
    TypedS(strict, t, f, fp, thn, g.pool, p);
    TypedS(strict, t, f, fp, els, b.pool, other);
    FlowJmp(strict, t, f, p + |b.code|, end);
    FlowsJoin(strict, t, f, pc, p, p + |b.code|);
    FlowsJoin(strict, t, f, pc, p + |b.code|, other);
    FlowsJoin(strict, t, f, pc, other, end);
  }

  lemma CondTyped(strict: bool, t: Typed, f: nat, fp: Float, st: Stmt, pool: Pool, pc: nat)
    requires HereS(strict, t, f, fp, st, pool, pc) && st.If?
    ensures f < |t.fts| && (strict ==> OkE(t.fts, t.fts[f].slots, st.cond) && TypeOf(st.cond) == TInt)
  {
    hide Sits, StackAt, Compile.GenS, TypesS, OkE;
  }

  lemma WhileShape(fp: Float, st: Stmt, pool: Pool, pc: nat, ret: Type)
    requires st.While?
    ensures var g := GenE(fp, st.cond, pool);
            var p := pc + |g.code| + 1;
            var b := GenS(fp, st.body1, p, g.pool);
            GenS(fp, st, pc, pool) == Gen(g.code + [OpJz(p + |b.code| + 1)] + b.code + [OpJmp(pc)], b.pool)
    ensures TypesS(st, ret) == TypesE(st.cond, []) + [[TypeOf(st.cond)]] + TypesS(st.body1, ret) + [[]]
  {
    hide Compile.GenE, TypesE, Compile.GenSeq, TypesSeq;
  }

  lemma WhileOk(fts: seq<FType>, slots: seq<Type>, ret: Type, st: Stmt)
    requires st.While? && OkS(fts, slots, ret, st)
    ensures OkE(fts, slots, st.cond) && TypeOf(st.cond) == TInt && OkS(fts, slots, ret, st.body1)
  {
    hide OkE;
  }

  lemma {:induction false} TypedWhile(strict: bool, t: Typed, f: nat, fp: Float, st: Stmt, pool: Pool, pc: nat)
    requires HereS(strict, t, f, fp, st, pool, pc) && st.While?
    ensures Flows(strict, t, f, pc, pc + |GenS(fp, st, pc, pool).code|)
    decreases st, 0
  {
    hide Sits, Flows, StackAt, Compile.GenE, TypesE, OkE, Compile.GenS, TypesS, OkS;
    WhileShape(fp, st, pool, pc, t.fts[f].ret);
    if strict { WhileOk(t.fts, t.fts[f].slots, t.fts[f].ret, st); }
    var c, body, ret := st.cond, st.body1, t.fts[f].ret;
    var g := GenE(fp, c, pool);
    var p := pc + |g.code| + 1;
    var b := GenS(fp, body, p, g.pool);
    var end := p + |b.code| + 1;
    var tc := TypesE(c, []) + [[TypeOf(c)]];
    TypesLength(fp, c, pool, []);
    TypesLengthS(fp, body, p, g.pool, ret);
    var first := g.code + [OpJz(end)];
    SitsSplit(t, f, pc, first + b.code, [OpJmp(pc)], tc + TypesS(body, ret), [[]]);
    SitsSplit(t, f, pc, first, b.code, tc, TypesS(body, ret));
    StackHere(t, f, pc, first, tc);
    StackHere(t, f, p + |b.code|, [OpJmp(pc)], [[]]);
    StartsEmpty(t, f, p, b.code, TypesS(body, ret));
    TypedCond(strict, t, f, fp, c, pool, pc, end);
    TypedS(strict, t, f, fp, body, g.pool, p);
    FlowJmp(strict, t, f, p + |b.code|, pc);
    FlowsJoin(strict, t, f, pc, p, p + |b.code|);
    FlowsJoin(strict, t, f, pc, p + |b.code|, end);
  }

  // ----- the peak -----

  /** No static stack of an expression is higher than its peak. */
  lemma {:induction false} BelowPeak(e: Expr, base: seq<Type>)
    ensures forall k :: 0 <= k < |TypesE(e, base)| ==> |TypesE(e, base)[k]| <= |base| + Peak(e)
    decreases e, 1
  {
    match e
    case IntLit(_) =>
    case DblLit(_) =>
    case Var(_, _) =>
    case Index(a, i) => BelowPeak(a, base); BelowPeak(i, base + [TypeOf(a)]);
    case I2D(a) => BelowPeak(a, base);
    case D2I(a) => BelowPeak(a, base);
    case Neg(a) => BelowPeak(a, base);
    case Bin(_, a, b, _) => BelowPeak(a, base); BelowPeak(b, base + [TypeOf(a)]);
    case Call(_, args, _) => BelowPeakArgs(args, base);
  }

  lemma {:induction false} BelowPeakArgs(es: seq<Expr>, base: seq<Type>)
    ensures forall k :: 0 <= k < |TypesArgs(es, base)| ==> |TypesArgs(es, base)[k]| <= |base| + PeakArgs(es)
    decreases es, 0
  {
    if es != [] {
      BelowPeak(es[0], base);
      BelowPeakArgs(es[1..], base + [TypeOf(es[0])]);
    }
  }

  /** Height in front of instruction `k`, or behind the last one. */
  function HeightAt(tys: seq<seq<Type>>, after: nat, k: nat): nat {
    if k < |tys| then |tys[k]| else after
  }

  /** The peak is reached: it is the exact need of the expression. */
  lemma {:induction false} PeakReached(e: Expr, base: seq<Type>) returns (k: nat)
    ensures k <= |TypesE(e, base)| && HeightAt(TypesE(e, base), |base| + 1, k) == |base| + Peak(e)
    decreases e, 1
  {
    match e
    case IntLit(_) => k := 1;
    case DblLit(_) => k := 1;
    case Var(_, _) => k := 1;
    case Index(a, i) => k := PeakReachedIn(e, a, i, base);
    case I2D(a) => k := PeakReached(a, base);
    case D2I(a) => k := PeakReached(a, base);
    case Neg(a) => k := PeakReached(a, base);
    case Bin(_, a, b, _) => k := PeakReachedIn(e, a, b, base);
    case Call(_, args, _) =>
      if args == [] {
        k := 1;
      } else {
        k := PeakReachedArgs(args, base);
      }
  }

  lemma {:induction false} PeakReachedIn(e: Expr, a: Expr, b: Expr, base: seq<Type>) returns (k: nat)
    requires (e.Index? && e.arr == a && e.idx == b) || (e.Bin? && e.a == a && e.b == b)
    ensures k <= |TypesE(e, base)| && HeightAt(TypesE(e, base), |base| + 1, k) == |base| + Peak(e)
    decreases e, 0
  {
    var ta, tb := TypesE(a, base), TypesE(b, base + [TypeOf(a)]);
    var last := [base + [TypeOf(a), TypeOf(b)]];
    assert TypesE(e, base) == ta + tb + last;
    if Peak(a) >= 1 + Peak(b) {
      k := PeakReached(a, base);
      assert k < |ta|;
    } else {
      var j := PeakReached(b, base + [TypeOf(a)]);
      k := |ta| + j;
      assert j == |tb| ==> (ta + tb + last)[k] == last[0];
    }
  }

  lemma {:induction false} PeakReachedArgs(es: seq<Expr>, base: seq<Type>) returns (k: nat)
    requires es != []
    ensures k <= |TypesArgs(es, base)| && HeightAt(TypesArgs(es, base), |base| + |es|, k) == |base| + PeakArgs(es)
    decreases es, 0
  {
    var one := base + [TypeOf(es[0])];
    var ta, tb := TypesE(es[0], base), TypesArgs(es[1..], one);
    if Peak(es[0]) >= 1 + PeakArgs(es[1..]) {
      k := PeakReached(es[0], base);
    } else {
      var j := PeakReachedArgs(es[1..], one);
      k := |ta| + j;
    }
  }

  lemma {:induction false} BelowPeakS(st: Stmt, ret: Type)
    ensures forall k :: 0 <= k < |TypesS(st, ret)| ==> |TypesS(st, ret)[k]| <= PeakS(st)
    decreases st, 1
  {
    hide TypesE, Peak;
    match st
    case Block(body) => BelowPeakSeq(body, ret);
    case DeclArray(_, _, len) => BelowPeak(len, []);
    case Decl(_, _, init) => if init.Some? { BelowPeak(init.value, []); }
    case Assign(_, e) => BelowPeak(e, []);
    case AssignIndex(a, i, e) =>
      BelowPeak(a, []);
      BelowPeak(i, [TypeOf(a)]);
      BelowPeak(e, [TypeOf(a), TypeOf(i)]);
    case If(_, _, _) => BelowPeakIf(st, ret);
    case While(c, body) =>
      BelowPeak(c, []);
      BelowPeakS(body, ret);
    case Return(value) => if value.Some? { BelowPeak(value.value, []); }
    case ExprStmt(e) => BelowPeak(e, []);
    case Print(e) => BelowPeak(e, []);
  }

  lemma {:induction false} BelowPeakIf(st: Stmt, ret: Type)
    requires st.If?
    ensures forall k :: 0 <= k < |TypesS(st, ret)| ==> |TypesS(st, ret)[k]| <= PeakS(st)
    decreases st, 0
  {
    hide TypesE, Peak, TypesSeq, PeakSeq;
    BelowPeak(st.cond, []);
    BelowPeakS(st.thn, ret);
    if st.els.Some? { BelowPeakS(st.els.value, ret); }
  }

  lemma {:induction false} BelowPeakSeq(ss: seq<Stmt>, ret: Type)
    ensures forall k :: 0 <= k < |TypesSeq(ss, ret)| ==> |TypesSeq(ss, ret)[k]| <= PeakSeq(ss)
    decreases ss, 0
  {
    hide TypesS, PeakS;
    if ss != [] {
      BelowPeakS(ss[0], ret);
      BelowPeakSeq(ss[1..], ret);
    }
  }

  // ----- programs -----

  function MapOf(fn: Func, ret: Type): seq<seq<Type>> { TypesS(fn.body, ret) + [[], [ret]] }

  ghost function TypingOf(fp: Float, prog: Program, fts: seq<FType>): Typed
    requires |fts| == |prog|
  {
    Typed(GenProgram(fp, prog), fts, seq(|prog|, k requires 0 <= k < |prog| => MapOf(prog[k], fts[k].ret)))
  }

  lemma MapSits(fp: Float, prog: Program, fts: seq<FType>, f: nat)
    requires |fts| == |prog| && f < |prog|
    ensures var t := TypingOf(fp, prog, fts);
            var g := GenS(fp, prog[f].body, 0, PoolBefore(fp, prog, f));
            && g.pool <= t.image.consts
            && t.image.funcs[f].code == g.code + [OpPushI(0), OpRet]
            && Sits(t, f, 0, g.code + [OpPushI(0), OpRet], TypesS(prog[f].body, fts[f].ret) + [[], [fts[f].ret]])
            && |g.code| == |TypesS(prog[f].body, fts[f].ret)|
  {
    hide Compile.GenS, TypesS;
    var t := TypingOf(fp, prog, fts);
    var g := GenS(fp, prog[f].body, 0, PoolBefore(fp, prog, f));
    TypesLengthS(fp, prog[f].body, 0, PoolBefore(fp, prog, f), fts[f].ret);
    PoolGrows(fp, prog, f + 1, |prog|);
    assert PoolBefore(fp, prog, f + 1) == g.pool;
    assert t.image.funcs[f] == GenRoutine(fp, prog, f);
    assert t.maps[f] == MapOf(prog[f], fts[f].ret);
    var code, map0 := t.image.funcs[f].code, t.maps[f];
    assert code[0..|code|] == code && map0[0..|map0|] == map0;
  }

  lemma RoutineFlows(fp: Float, strict: bool, prog: Program, fts: seq<FType>, f: nat)
    requires |fts| == |prog| && f < |prog| && (strict ==> OkProgram(fts, prog))
    ensures var t := TypingOf(fp, prog, fts); Flows(strict, t, f, 0, |t.image.funcs[f].code|)
  {
    hide Sits, Flows, StackAt, Compile.GenS, TypesS, OkS, Compile.GenProgram;
    var t := TypingOf(fp, prog, fts);
    var g := GenS(fp, prog[f].body, 0, PoolBefore(fp, prog, f));
    var ret := fts[f].ret;
    MapSits(fp, prog, fts, f);
    SitsSplit(t, f, 0, g.code, [OpPushI(0), OpRet], TypesS(prog[f].body, ret), [[], [ret]]);
    StackHere(t, f, |g.code|, [OpPushI(0), OpRet], [[], [ret]]);
    if strict { assert OkFunc(fts, fts[f], prog[f]); }
    TypedS(strict, t, f, fp, prog[f].body, PoolBefore(fp, prog, f), 0);
    TypedReturnZero(strict, t, f, |g.code|);
    FlowsJoin(strict, t, f, 0, |g.code|, |g.code| + 2);
  }

  lemma RoutineChecked(fp: Float, strict: bool, prog: Program, fts: seq<FType>, f: nat)
    requires |fts| == |prog| && f < |prog| && FitsStack(prog) && (strict ==> OkProgram(fts, prog))
    ensures RoutineOk(strict, TypingOf(fp, prog, fts), f)
  {
    hide FlowOk, Compile.GenS, TypesS, OkS, PeakS, Sits;
    var t := TypingOf(fp, prog, fts);
    RoutineFlows(fp, strict, prog, fts, f);
    MapSits(fp, prog, fts, f);
    BelowPeakS(prog[f].body, fts[f].ret);
    if strict { assert OkFunc(fts, fts[f], prog[f]); }
    assert t.maps[f] == TypesS(prog[f].body, fts[f].ret) + [[], [fts[f].ret]];
  }

  /** Generated code is checked: stack heights for every program, types for well-formed ones. */
  lemma GeneratedIsChecked(fp: Float, strict: bool, prog: Program, fts: seq<FType>)
    requires |fts| == |prog| && FitsStack(prog) && (strict ==> OkProgram(fts, prog))
    ensures Checked(strict, TypingOf(fp, prog, fts))
  {
    hide RoutineOk, OkProgram, FitsStack;
    forall f | 0 <= f < |prog| ensures RoutineOk(strict, TypingOf(fp, prog, fts), f) {
      RoutineChecked(fp, strict, prog, fts, f);
    }
  }

  /** In every program whose operands fit the stack, well typed or not, every state of every run, in any
      function called, has the static height of its instruction. */
  lemma StackDiscipline(fp: Float, prog: Program, f: nat, args: seq<Val>, s: Store, k: nat)
    requires FitsStack(prog) && f < |prog|
    ensures var t := TypingOf(fp, prog, Untyped(prog));
            var c := Start(t.image, f, args, s).value;
            && Throughout(VmOf(fp, t.image), k, c, x => IsGood(false, t, x))
            && var r := Exec(VmOf(fp, t.image), k, c);
               r.Trap? ==> !r.msg.StackOverflow? && !r.msg.StackUnderflow?
  {
    hide Checked, IsGood, Driver.Exec, Throughout, Good;
    var t := TypingOf(fp, prog, Untyped(prog));
    GeneratedIsChecked(fp, false, prog, Untyped(prog));
    StartGood(false, t, f, args, s, []);
    var _ := RunGood(fp, false, t, k, Start(t.image, f, args, s).value, []);
  }

  function Untyped(prog: Program): seq<FType> { seq(|prog|, _ => FType([], TInt, [])) }

  /** In a well-formed program every state of every run has the static types: operands, locals and heap.
      The only ways to fail are the four run-time errors of the language. */
  lemma TypesHold(fp: Float, prog: Program, fts: seq<FType>, f: nat, k: nat)
    requires FitsStack(prog) && OkProgram(fts, prog) && f < |prog|
    ensures var t := TypingOf(fp, prog, fts);
            var c := Start(t.image, f, [], Store([], [])).value;
            && Throughout(VmOf(fp, t.image), k, c, x => IsGood(true, t, x))
            && match Exec(VmOf(fp, t.image), k, c)
               case Ok(fin, _) =>
                 if fts[f].ret.TInt? then fin.v.VInt? else fts[f].ret.TDouble? ==> fin.v.VDbl? || fin.v == ZERO
               case Trap(m, _) => RuntimeError(m)
               case Wrong => false
               case Timeout => true
  {
    hide Checked, IsGood, Driver.Exec, Throughout, Good;
    var t := TypingOf(fp, prog, fts);
    GeneratedIsChecked(fp, true, prog, fts);
    StartGood(true, t, f, [], Store([], []), []);
    var _ := RunGood(fp, true, t, k, Start(t.image, f, [], Store([], [])).value, []);
  }
}
