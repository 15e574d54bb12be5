/** When a program's numbers fit the fields of the file, said of the resolved tree: the condition of the compiler
    theorem that a caller can check before compiling. */
module Fits {
  import opened Values
  import opened Ast
  import opened Machine
  import opened Compile
  import opened Encode
  import opened ModuleFile
  import opened Backend

  /** Integer literals of 64 bits, 16-bit slots and function numbers, fewer than 256 arguments. */
  predicate SmallE(e: Expr)
    decreases e, 1
  {
    match e
    case IntLit(i) => -TWO_63 <= i < TWO_63
    case DblLit(_) => true
    case Var(slot, _) => slot < 65_536
    case Index(a, i) => SmallE(a) && SmallE(i)
    case I2D(a) => SmallE(a)
    case D2I(a) => SmallE(a)
    case Neg(a) => SmallE(a)
    case Bin(_, a, b, _) => SmallE(a) && SmallE(b)
    case Call(f, args, _) => f < 65_536 && |args| < 256 && SmallArgs(args)
  }

  predicate SmallArgs(es: seq<Expr>)
    decreases es, 0
  {
    es == [] || (SmallE(es[0]) && SmallArgs(es[1..]))
  }

  predicate SmallS(st: Stmt)
    decreases st, 1
  {
    match st
    case Block(body) => SmallSeq(body)
    case DeclArray(_, slot, len) => slot < 65_536 && SmallE(len)
    case Decl(_, slot, init) => slot < 65_536 && (init.Some? ==> SmallE(init.value))
    case Assign(slot, e) => slot < 65_536 && SmallE(e)
    case AssignIndex(a, i, e) => SmallE(a) && SmallE(i) && SmallE(e)
    case If(c, thn, els) => SmallE(c) && SmallS(thn) && (els.Some? ==> SmallS(els.value))
    case While(c, body) => SmallE(c) && SmallS(body)
    case Return(value) => value.Some? ==> SmallE(value.value)
    case ExprStmt(e) => SmallE(e)
    case Print(e) => SmallE(e)
  }

  predicate SmallSeq(ss: seq<Stmt>)
    decreases ss, 0
  {
    ss == [] || (SmallS(ss[0]) && SmallSeq(ss[1..]))
  }

  /** Besides the trees: frames of fewer than 2^16 slots, names of 8-bit characters, fewer than 2^32 functions and
      constants, and no function of 2^31 bytes or more, at five bytes an instruction. */
  ghost predicate SmallProgram(fp: Float, prog: Program) {
    && |prog| < TWO_32 && |GenProgram(fp, prog).consts| < TWO_32
    && forall f :: 0 <= f < |prog| ==>
         && prog[f].nparams < 65_536 && prog[f].nlocals < 65_536 && SmallS(prog[f].body)
         && (forall i :: 0 <= i < |prog[f].name| ==> prog[f].name[i] as int < 256)
         && 5 * |GenProgram(fp, prog).funcs[f].code| < TWO_31
  }

  // ----- every operand fits -----

  predicate Good(i: Instr, n: nat) { if i.OpPushC? then i.k < n else OperandFits(i) }

  predicate AllGood(code: seq<Instr>, n: nat) { forall i :: i in code ==> Good(i, n) }

  predicate PoolFits(pool: Pool) { forall k :: 0 <= k < |pool| ==> ConstFits(pool[k]) }

  predicate Fine(g: Gen) { AllGood(g.code, |g.pool|) && PoolFits(g.pool) }

  lemma FineJoin(g: Gen, h: Gen)
    requires Fine(g) && Fine(h) && |g.pool| <= |h.pool|
    ensures Fine(Gen(g.code + h.code, h.pool))
  {
  }

  lemma FineThen(g: Gen, i: Instr)
    requires Fine(g) && Good(i, |g.pool|)
    ensures Fine(Gen(g.code + [i], g.pool))
  {
  }

  lemma FineConst(fp: Float, pool: Pool, c: Const)
    requires PoolFits(pool) && ConstFits(c) && (c.CDbl? ==> IsLiteral(c.d))
    ensures Fine(PushConst(fp, pool, c))
  {
  }

  lemma FineNone(pool: Pool)
    requires PoolFits(pool)
    ensures Fine(Gen([], pool))
  {
  }

  lemma FineOne(i: Instr, pool: Pool)
    requires PoolFits(pool) && Good(i, |pool|)
    ensures Fine(Gen([i], pool))
  {
  }

  lemma {:induction false} FineE(fp: Float, e: Expr, pool: Pool)
    requires SmallE(e) && PoolFits(pool)
    ensures Fine(GenE(fp, e, pool))
    decreases e, 1
  {
    hide PushConst, PoolFits, AllGood;
    match e
    case IntLit(i) => if INT_MIN <= i <= INT_MAX { FineOne(OpPushI(i), pool); } else { FineConst(fp, pool, CInt(i)); }
    case DblLit(d) => FineConst(fp, pool, CDbl(d));
    case Var(slot, _) => FineOne(OpLoadL(slot), pool);
    case Index(a, i) => FineBoth(fp, e, a, i, OpALoad, pool);
    case Bin(op, a, b, _) => FineBoth(fp, e, a, b, OpBin(op), pool);
    case I2D(a) =>
      FineE(fp, a, pool);
      FineThen(GenE(fp, a, pool), OpI2D);
    case D2I(a) =>
      FineE(fp, a, pool);
      FineThen(GenE(fp, a, pool), OpD2I);
    case Neg(a) =>
      FineE(fp, a, pool);
      FineThen(GenE(fp, a, pool), OpNeg);
    case Call(f, args, _) =>
      FineArgs(fp, args, pool);
      FineThen(GenArgs(fp, args, pool), OpCall(f, |args|));
  }

  lemma {:induction false} FineBoth(fp: Float, e: Expr, a: Expr, b: Expr, i: Instr, pool: Pool)
    requires a < e && b < e && SmallE(a) && SmallE(b) && PoolFits(pool) && OperandBytes(i) == 0
    ensures var g := GenE(fp, a, pool); var h := GenE(fp, b, g.pool); Fine(Gen(g.code + h.code + [i], h.pool))
    decreases e, 0
  {
    hide PoolFits, AllGood, SmallE;
    FineE(fp, a, pool);
    var g := GenE(fp, a, pool);
    FineE(fp, b, g.pool);
    var h := GenE(fp, b, g.pool);
    FineJoin(g, h);
    FineThen(Gen(g.code + h.code, h.pool), i);
  }

  lemma {:induction false} FineArgs(fp: Float, es: seq<Expr>, pool: Pool)
    requires SmallArgs(es) && PoolFits(pool)
    ensures Fine(GenArgs(fp, es, pool))
    decreases es, 0
  {
    hide Compile.GenE, PoolFits, AllGood, SmallE;
    if es == [] {
      FineNone(pool);
    } else {
      FineE(fp, es[0], pool);
      var g := GenE(fp, es[0], pool);
      FineArgs(fp, es[1..], g.pool);
      FineJoin(g, GenArgs(fp, es[1..], g.pool));
    }
  }

  lemma {:induction false} FineS(fp: Float, st: Stmt, pc: nat, pool: Pool)
    requires SmallS(st) && PoolFits(pool)
    ensures Fine(GenS(fp, st, pc, pool))
    decreases st, 1
  {
    hide Compile.GenE, PoolFits, AllGood, SmallE, PushConst, Fine;
    match st
    case Block(body) => FineSeq(fp, body, pc, pool);
    case If(c, thn, els) => FineIf(fp, st, pc, pool);
    case While(c, body) => FineWhile(fp, st, pc, pool);
    case _ => FineSimple(fp, st, pc, pool);
  }

  lemma FineSimple(fp: Float, st: Stmt, pc: nat, pool: Pool)
    requires SmallS(st) && PoolFits(pool) && !st.Block? && !st.If? && !st.While?
    ensures Fine(GenS(fp, st, pc, pool))
  {
    hide Compile.GenE, PoolFits, AllGood, SmallE, PushConst;
    match st
    case DeclArray(_, slot, len) =>
      FineE(fp, len, pool);
      var g := GenE(fp, len, pool);
      FineThen(g, OpNewArr);
      FineThen(Gen(g.code + [OpNewArr], g.pool), OpStoreL(slot));
      assert g.code + [OpNewArr] + [OpStoreL(slot)] == g.code + [OpNewArr, OpStoreL(slot)];
    case Decl(ty, slot, init) =>
      FineInit(fp, ty, init, pool);
      FineThen(GenInit(fp, ty, init, pool), OpStoreL(slot));
    case Assign(slot, e) =>
      FineE(fp, e, pool);
      FineThen(GenE(fp, e, pool), OpStoreL(slot));
    case AssignIndex(a, i, e) => FineStore(fp, a, i, e, pool);
    case Return(value) => FineReturn(fp, value, pool);
    case ExprStmt(e) =>
      FineE(fp, e, pool);
      FineThen(GenE(fp, e, pool), OpPop);
    case Print(e) =>
      FineE(fp, e, pool);
      FineThen(GenE(fp, e, pool), OpPrint);
  }

  lemma FineInit(fp: Float, ty: Type, init: Option<Expr>, pool: Pool)
    requires PoolFits(pool) && (init.Some? ==> SmallE(init.value))
    ensures Fine(GenInit(fp, ty, init, pool))
  {
    hide Compile.GenE, PoolFits, AllGood, SmallE, PushConst;
    if init.Some? {
      FineE(fp, init.value, pool);
    } else if ty.TDouble? {
      FineConst(fp, pool, CDbl(0));
    } else {
      FineOne(OpPushI(0), pool);
    }
  }

  lemma FineStore(fp: Float, a: Expr, i: Expr, e: Expr, pool: Pool)
    requires SmallE(a) && SmallE(i) && SmallE(e) && PoolFits(pool)
    ensures var g := GenE(fp, a, pool); var h := GenE(fp, i, g.pool); var v := GenE(fp, e, h.pool);
            Fine(Gen(g.code + h.code + v.code + [OpAStore], v.pool))
  {
    hide Compile.GenE, PoolFits, AllGood, SmallE;
    FineE(fp, a, pool);
    var g := GenE(fp, a, pool);
    FineE(fp, i, g.pool);
    var h := GenE(fp, i, g.pool);
    FineE(fp, e, h.pool);
    var v := GenE(fp, e, h.pool);
    FineJoin(g, h);
    FineJoin(Gen(g.code + h.code, h.pool), v);
    FineThen(Gen(g.code + h.code + v.code, v.pool), OpAStore);
  }

  lemma FineReturn(fp: Float, value: Option<Expr>, pool: Pool)
    requires PoolFits(pool) && (value.Some? ==> SmallE(value.value))
    ensures Fine(GenS(fp, Return(value), 0, pool))
  {
    hide Compile.GenE, PoolFits, AllGood, SmallE;
    if value.Some? {
      FineE(fp, value.value, pool);
      FineThen(GenE(fp, value.value, pool), OpRet);
    } else {
      FineOne(OpPushI(0), pool);
      FineThen(Gen([OpPushI(0)], pool), OpRet);
      assert [OpPushI(0)] + [OpRet] == [OpPushI(0), OpRet];
    }
  }

  lemma {:induction false} FineIf(fp: Float, st: Stmt, pc: nat, pool: Pool)
    requires st.If? && SmallS(st) && PoolFits(pool)
    ensures Fine(GenS(fp, st, pc, pool))
    decreases st, 0
  {
    hide Compile.GenE, PoolFits, AllGood, SmallE;
    FineE(fp, st.cond, pool);
    var g := GenE(fp, st.cond, pool);
    var t := GenS(fp, st.thn, pc + |g.code| + 1, g.pool);
    FineS(fp, st.thn, pc + |g.code| + 1, g.pool);
    var other := pc + |g.code| + 1 + |t.code|;
    if st.els.Some? {
      var e := GenS(fp, st.els.value, other + 1, t.pool);
      FineS(fp, st.els.value, other + 1, t.pool);
      FineParts(g, OpJz(other + 1), t, OpJmp(other + 1 + |e.code|), e);
    } else {
      FineThen(g, OpJz(other));
      FineJoin(Gen(g.code + [OpJz(other)], g.pool), t);
    }
  }

  lemma FineParts(g: Gen, i: Instr, t: Gen, j: Instr, e: Gen)
    requires Fine(g) && Fine(t) && Fine(e) && |g.pool| <= |t.pool| <= |e.pool| && i.OpJz? && j.OpJmp?
    ensures Fine(Gen(g.code + [i] + t.code + [j] + e.code, e.pool))
  {
    hide Fine;
    FineThen(g, i);
    FineJoin(Gen(g.code + [i], g.pool), t);
    FineThen(Gen(g.code + [i] + t.code, t.pool), j);
    FineJoin(Gen(g.code + [i] + t.code + [j], t.pool), e);
  }

  lemma {:induction false} FineWhile(fp: Float, st: Stmt, pc: nat, pool: Pool)
    requires st.While? && SmallS(st) && PoolFits(pool)
    ensures Fine(GenS(fp, st, pc, pool))
    decreases st, 0
  {
    hide Compile.GenE, PoolFits, AllGood, SmallE;
    FineE(fp, st.cond, pool);
    var g := GenE(fp, st.cond, pool);
    var b := GenS(fp, st.body1, pc + |g.code| + 1, g.pool);
    FineS(fp, st.body1, pc + |g.code| + 1, g.pool);
    var out := OpJz(pc + |g.code| + 1 + |b.code| + 1);
    FineThen(g, out);
    FineJoin(Gen(g.code + [out], g.pool), b);
    FineThen(Gen(g.code + [out] + b.code, b.pool), OpJmp(pc));
  }

  lemma {:induction false} FineSeq(fp: Float, ss: seq<Stmt>, pc: nat, pool: Pool)
    requires SmallSeq(ss) && PoolFits(pool)
    ensures Fine(GenSeq(fp, ss, pc, pool))
    decreases ss, 0
  {
    hide Compile.GenS, PoolFits, AllGood, SmallS;
    if ss == [] {
      FineNone(pool);
    } else {
      FineS(fp, ss[0], pc, pool);
      var g := GenS(fp, ss[0], pc, pool);
      FineSeq(fp, ss[1..], pc + |g.code|, g.pool);
      FineJoin(g, GenSeq(fp, ss[1..], pc + |g.code|, g.pool));
    }
  }

  // ----- whole programs -----

  lemma FineFunc(fp: Float, f: Func, pool: Pool)
    requires SmallS(f.body) && PoolFits(pool)
    ensures Fine(GenFunc(fp, f, pool))
  {
    hide Compile.GenS, PoolFits, AllGood, SmallS;
    var g := GenS(fp, f.body, 0, pool);
    FineS(fp, f.body, 0, pool);
    FineThen(g, OpPushI(0));
    FineThen(Gen(g.code + [OpPushI(0)], g.pool), OpRet);
    assert g.code + [OpPushI(0)] + [OpRet] == g.code + [OpPushI(0), OpRet];
  }

  lemma {:induction false} FinePools(fp: Float, prog: Program, i: nat)
    requires i <= |prog| && forall f :: 0 <= f < |prog| ==> SmallS(prog[f].body)
    ensures PoolFits(PoolBefore(fp, prog, i))
    ensures forall f :: 0 <= f < i ==> AllGood(GenRoutine(fp, prog, f).code, |PoolBefore(fp, prog, f + 1)|)
  {
    hide GenFunc, AllGood, SmallS;
    if i > 0 {
      FinePools(fp, prog, i - 1);
      FineFunc(fp, prog[i - 1], PoolBefore(fp, prog, i - 1));
    }
  }

  lemma {:induction false} PoolsGrow(fp: Float, prog: Program, i: nat, j: nat)
    requires i <= j <= |prog|
    ensures |PoolBefore(fp, prog, i)| <= |PoolBefore(fp, prog, j)|
    decreases j - i
  {
    hide GenFunc;
    if i < j { PoolsGrow(fp, prog, i, j - 1); }
  }

  /** No instruction is longer than five bytes. */
  lemma {:induction false} OffAtMost(code: seq<Instr>, k: nat)
    requires k <= |code|
    ensures Off(code, k) <= 5 * k
  {
    if k > 0 { OffAtMost(code, k - 1); }
  }

  lemma GoodCodeFits(code: seq<Instr>, n: nat)
    requires AllGood(code, n) && n <= TWO_32 && Closed(code) && 5 * |code| < TWO_31
    ensures Encodable(code)
  {
    hide OperandFits, Off, Closed;
    OffAtMost(code, |code|);
    forall k | 0 <= k < |code| ensures OperandFits(code[k]) {
      assert code[k] in code;
      PoolIndexFits(code[k], n);
    }
  }

  lemma PoolIndexFits(i: Instr, n: nat)
    requires Good(i, n) && n <= TWO_32
    ensures OperandFits(i)
  {
  }

  lemma SmallFuncFits(fp: Float, prog: Program, f: nat)
    requires f < |prog| && SmallProgram(fp, prog)
    ensures FuncFits(GenProgram(fp, prog).funcs[f])
  {
    hide GenFunc, SmallS, AllGood, Encodable;
    GeneratedCodeIsClosed(fp, prog);
    FinePools(fp, prog, f + 1);
    PoolsGrow(fp, prog, f + 1, |prog|);
    var r := GenRoutine(fp, prog, f);
    assert GenProgram(fp, prog).funcs[f] == r;
    GoodCodeFits(r.code, |PoolBefore(fp, prog, f + 1)|);
  }

  /** A small program whose operands fit the stack is compiled faithfully. */
  lemma SmallIsCompilable(fp: Float, prog: Program)
    requires EqIsIdentityOnLiterals(fp) && FitsStack(prog) && SmallProgram(fp, prog)
    ensures Compilable(fp, prog)
  {
    hide GenRoutine, FuncFits, SmallS, FitsStack;
    FinePools(fp, prog, |prog|);
    forall f | 0 <= f < |prog| ensures FuncFits(GenProgram(fp, prog).funcs[f]) { SmallFuncFits(fp, prog, f); }
  }
}
