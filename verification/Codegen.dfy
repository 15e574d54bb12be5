/** The code generator as it runs: instructions are appended to a growing list, jumps are emitted with a
    placeholder and patched once their target is known. */
module Codegen {
  import opened Values
  import opened Ast
  import opened Machine
  import opened Compile

  /** The function being generated. */
  class FuncBuf {
    var code: seq<Instr>

    constructor ()
      ensures code == []
    {
      code := [];
    }

    /** `emit_i`: appends and returns the index. */
    method Emit(i: Instr) returns (at: nat)
      modifies this
      ensures code == old(code) + [i] && at == |old(code)|
    {
      at := |code|;
      code := code + [i];
    }

    /** Overwrites the target of the jump at `at`. */
    method Patch(at: nat, i: Instr)
      requires at < |code|
      modifies this
      ensures code == old(code)[at := i]
    {
      code := code[at := i];
    }
  }

  class ModuleBuf {
    const fp: Float
    var consts: Pool
    var funcs: seq<Routine>
    var entry: int

    constructor (fp: Float)
      ensures this.fp == fp && consts == [] && funcs == [] && entry == -1
    {
      this.fp := fp;
      consts := [];
      funcs := [];
      entry := -1;
    }

    /** `const_intern_int` and `const_intern_double`: linear search, append when absent. */
    method ConstIntern(c: Const) returns (k: nat)
      requires c.CDbl? ==> IsLiteral(c.d)
      modifies `consts
      ensures k == FindConst(fp, old(consts), c) && consts == Intern(fp, old(consts), c)
    {
      k := 0;
      while k < |consts|
        invariant k <= |consts|
        invariant FindConst(fp, consts, c) == k + FindConst(fp, consts[k..], c)
      {
        if SameConst(fp, consts[k], c) { return; }
        assert consts[k..][1..] == consts[k + 1..];
        k := k + 1;
      }
      consts := consts + [c];
    }
  }

  method PushInt(m: ModuleBuf, f: FuncBuf, v: int)
    modifies m`consts, f
    ensures var g := GenInt(m.fp, old(m.consts), v); f.code == old(f.code) + g.code && m.consts == g.pool
  {
    if INT_MIN <= v <= INT_MAX {
      var _ := f.Emit(OpPushI(v));
    } else {
      var k := m.ConstIntern(CInt(v));
      var _ := f.Emit(OpPushC(k));
    }
  }

  method PushDouble(m: ModuleBuf, f: FuncBuf, d: Lit)
    modifies m`consts, f
    ensures var g := PushConst(m.fp, old(m.consts), CDbl(d)); f.code == old(f.code) + g.code && m.consts == g.pool
  {
    var k := m.ConstIntern(CDbl(d));
    var _ := f.Emit(OpPushC(k));
  }

  method GenExpr(m: ModuleBuf, f: FuncBuf, e: Expr)
    modifies m`consts, f
    ensures var g := GenE(m.fp, e, old(m.consts)); f.code == old(f.code) + g.code && m.consts == g.pool
    decreases e, 1
  {
    match e
    case IntLit(i) => PushInt(m, f, i);
    case DblLit(d) => PushDouble(m, f, d);
    case Var(slot, _) => var _ := f.Emit(OpLoadL(slot));
    case Index(a, i) =>
      GenExpr(m, f, a);
      GenExpr(m, f, i);
      var _ := f.Emit(OpALoad);
    case I2D(a) =>
      GenExpr(m, f, a);
      var _ := f.Emit(OpI2D);
    case D2I(a) =>
      GenExpr(m, f, a);
      var _ := f.Emit(OpD2I);
    case Neg(a) =>
      GenExpr(m, f, a);
      var _ := f.Emit(OpNeg);
    case Bin(op, a, b, _) =>
      GenExpr(m, f, a);
      GenExpr(m, f, b);
      var _ := f.Emit(OpBin(op));
    case Call(fn, args, _) =>
      GenArguments(m, f, args);
      var _ := f.Emit(OpCall(fn, |args|));
  }

  /** The arguments of a call, in order. */
  method GenArguments(m: ModuleBuf, f: FuncBuf, args: seq<Expr>)
    modifies m`consts, f
    ensures var g := GenArgs(m.fp, args, old(m.consts)); f.code == old(f.code) + g.code && m.consts == g.pool
    decreases args, 0
  {
    hide Compile.GenE;
    ghost var code0, pool0 := f.code, m.consts;
    for i := 0 to |args|
      invariant var h := GenArgs(m.fp, args[i..], m.consts); var g := GenArgs(m.fp, args, pool0);
                f.code + h.code == code0 + g.code && h.pool == g.pool
    {
      assert args[i..][1..] == args[i + 1..];
      GenExpr(m, f, args[i]);
    }
    assert args[|args|..] == [];
  }

  method GenBlock(m: ModuleBuf, f: FuncBuf, body: seq<Stmt>)
    modifies m`consts, f
    ensures var g := GenSeq(m.fp, body, |old(f.code)|, old(m.consts));
            f.code == old(f.code) + g.code && m.consts == g.pool
    decreases body, 0
  {
    hide Compile.GenS;
    ghost var code0, pool0 := f.code, m.consts;
    for i := 0 to |body|
      invariant var h := GenSeq(m.fp, body[i..], |f.code|, m.consts); var g := GenSeq(m.fp, body, |code0|, pool0);
                f.code + h.code == code0 + g.code && h.pool == g.pool
    {
      assert body[i..][1..] == body[i + 1..];
      GenStmt(m, f, body[i]);
    }
    assert body[|body|..] == [];
  }

  method GenStmt(m: ModuleBuf, f: FuncBuf, st: Stmt)
    modifies m`consts, f
    ensures var g := GenS(m.fp, st, |old(f.code)|, old(m.consts)); f.code == old(f.code) + g.code && m.consts == g.pool
    decreases st, 2
  {
    hide Compile.GenE;
    match st
    case Block(body) => GenBlock(m, f, body);
    case If(cond, thn, els) =>
      if els.Some? { GenIfElse(m, f, st); } else { GenIfThen(m, f, st); }
    case While(_, _) => GenWhile(m, f, st);
    case _ => GenSimple(m, f, st);
  }

  /** Statements without statements inside. */
  method GenSimple(m: ModuleBuf, f: FuncBuf, st: Stmt)
    requires !st.Block? && !st.If? && !st.While?
    modifies m`consts, f
    ensures var g := GenS(m.fp, st, |old(f.code)|, old(m.consts)); f.code == old(f.code) + g.code && m.consts == g.pool
    decreases st, 1
  {
    hide Compile.GenE;
    match st
    case DeclArray(_, slot, len) =>
      GenExpr(m, f, len);
      var _ := f.Emit(OpNewArr);
      var _ := f.Emit(OpStoreL(slot));
    case Decl(ty, slot, init) =>
      match init {
        case Some(e) => GenExpr(m, f, e);
        case None =>
          if ty.TDouble? {
            PushDouble(m, f, 0);
          } else {
            var _ := f.Emit(OpPushI(0));
          }
      }
      var _ := f.Emit(OpStoreL(slot));
    case Assign(slot, e) =>
      GenExpr(m, f, e);
      var _ := f.Emit(OpStoreL(slot));
    case AssignIndex(a, i, e) =>
      GenExpr(m, f, a);
      GenExpr(m, f, i);
      GenExpr(m, f, e);
      var _ := f.Emit(OpAStore);
    case Return(value) =>
      match value {
        case Some(e) => GenExpr(m, f, e);
        case None => var _ := f.Emit(OpPushI(0));
      }
      var _ := f.Emit(OpRet);
    case ExprStmt(e) =>
      GenExpr(m, f, e);
      var _ := f.Emit(OpPop);
    case Print(e) =>
      GenExpr(m, f, e);
      var _ := f.Emit(OpPrint);
  }

  method GenIfThen(m: ModuleBuf, f: FuncBuf, st: Stmt)
    requires st.If?
    modifies m`consts, f
    ensures var pc := |old(f.code)|;
            var g := GenE(m.fp, st.cond, old(m.consts));
            var t := GenS(m.fp, st.thn, pc + |g.code| + 1, g.pool);
            && f.code == old(f.code) + (g.code + [OpJz(pc + |g.code| + 1 + |t.code|)] + t.code)
            && m.consts == t.pool
    decreases st, 0
  {
    hide Compile.GenE, Compile.GenS;
    ghost var code0 := f.code;
    GenExpr(m, f, st.cond);
    ghost var test := f.code[|code0|..];
    var jz := f.Emit(OpJz(0));
    GenStmt(m, f, st.thn);
    ghost var thn := f.code[jz + 1..];
    f.Patch(jz, OpJz(|f.code|));
    assert f.code == code0 + (test + [OpJz(|f.code|)] + thn);
  }

  method GenIfElse(m: ModuleBuf, f: FuncBuf, st: Stmt)
    requires st.If? && st.els.Some?
    modifies m`consts, f
    ensures var pc := |old(f.code)|;
            var g := GenE(m.fp, st.cond, old(m.consts));
            var t := GenS(m.fp, st.thn, pc + |g.code| + 1, g.pool);
            var other := pc + |g.code| + 1 + |t.code| + 1;
            var e := GenS(m.fp, st.els.value, other, t.pool);
            && f.code == old(f.code) + (g.code + [OpJz(other)] + t.code + [OpJmp(other + |e.code|)] + e.code)
            && m.consts == e.pool
    decreases st, 0
  {
    hide Compile.GenE, Compile.GenS;
    ghost var code0 := f.code;
    GenExpr(m, f, st.cond);
    ghost var test := f.code[|code0|..];
    var jz := f.Emit(OpJz(0));
    GenStmt(m, f, st.thn);
    ghost var thn := f.code[jz + 1..];
    ghost var target := |f.code| + 1;
    PatchedAt(code0 + test, OpJz(0), thn, OpJz(target));
    GenElse(m, f, st.els.value, jz);
    ghost var tail := f.code[target - 1..];
    assert f.code == code0 + (test + [OpJz(target)] + thn + [tail[0]] + tail[1..]);
  }

  /** From the end of the first branch on: the jump over the second one, whose start `jz` is patched to. */
  method GenElse(m: ModuleBuf, f: FuncBuf, els: Stmt, jz: nat)
    requires jz < |f.code|
    modifies m`consts, f
    ensures var target := |old(f.code)| + 1;
            var e := GenS(m.fp, els, target, old(m.consts));
            && f.code == old(f.code)[jz := OpJz(target)] + ([OpJmp(target + |e.code|)] + e.code)
            && m.consts == e.pool
    decreases els, 3
  {
    hide Compile.GenS;
    var jmp := f.Emit(OpJmp(0));
    f.Patch(jz, OpJz(|f.code|));
    ghost var front, target := f.code[..jmp], |f.code|;
    assert front == old(f.code)[jz := OpJz(target)];
    assert f.code == front + [OpJmp(0)];
    GenStmt(m, f, els);
    ghost var other := f.code[target..];
    PatchedAt(front, OpJmp(0), other, OpJmp(|f.code|));
    f.Patch(jmp, OpJmp(|f.code|));
    assert f.code == front + ([OpJmp(target + |other|)] + other);
  }

  /** Overwriting one instruction between two stretches. */
  lemma PatchedAt(a: seq<Instr>, i: Instr, b: seq<Instr>, j: Instr)
    ensures (a + [i] + b)[|a| := j] == a + [j] + b
  {
  }

  method GenWhile(m: ModuleBuf, f: FuncBuf, st: Stmt)
    requires st.While?
    modifies m`consts, f
    ensures var pc := |old(f.code)|;
            var g := GenE(m.fp, st.cond, old(m.consts));
            var b := GenS(m.fp, st.body1, pc + |g.code| + 1, g.pool);
            && f.code == old(f.code) + (g.code + [OpJz(pc + |g.code| + 1 + |b.code| + 1)] + b.code + [OpJmp(pc)])
            && m.consts == b.pool
    decreases st, 0
  {
    hide Compile.GenE, Compile.GenS;
    ghost var code0 := f.code;
    var top := |f.code|;
    GenExpr(m, f, st.cond);
    ghost var test := f.code[top..];
    var jz := f.Emit(OpJz(0));
    GenStmt(m, f, st.body1);
    ghost var body := f.code[jz + 1..];
    var _ := f.Emit(OpJmp(top));
    f.Patch(jz, OpJz(|f.code|));
    assert f.code == code0 + (test + [OpJz(|f.code|)] + body + [OpJmp(top)]);
  }

  /** One function's code, with the safety net at its end. */
  method GenFunction(m: ModuleBuf, fn: Func) returns (code: seq<Instr>)
    modifies m`consts
    ensures var g := GenFunc(m.fp, fn, old(m.consts)); code == g.code && m.consts == g.pool
  {
    hide Compile.GenS;
    var f := new FuncBuf();
    GenStmt(m, f, fn.body);
    ghost var body := f.code;
    var _ := f.Emit(OpPushI(0));
    var _ := f.Emit(OpRet);
    code := f.code;
    assert code == body + [OpPushI(0), OpRet];
  }

  /** `codegen`. */
  method GenModule(fp: Float, prog: Program) returns (m: ModuleBuf)
    ensures fresh(m) && m.fp == fp
    ensures Image(m.consts, m.funcs, m.entry) == GenProgram(fp, prog)
  {
    hide Compile.GenFunc;
    m := new ModuleBuf(fp);
    for i := 0 to |prog|
      invariant fresh(m) && m.fp == fp
      invariant m.consts == PoolBefore(fp, prog, i)
      invariant |m.funcs| == i && forall j :: 0 <= j < i ==> m.funcs[j] == GenRoutine(fp, prog, j)
      invariant m.entry == EntryOf(prog, i)
    {
      var code := GenFunction(m, prog[i]);
      var name := CutName(prog[i].name);
      if name == "main" { m.entry := i; }
      m.funcs := m.funcs + [Routine(name, prog[i].nparams, prog[i].nlocals, code)];
    }
  }
}
