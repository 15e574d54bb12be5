/** What the code generator produces, as functions of the tree: the instruction list, with absolute
    jump targets, and the constant pool it leaves behind. */
module Compile {
  import opened Values
  import opened Ast
  import opened Machine

  /** A constant pool: its doubles come from literals of the source. */
  type Pool = p: seq<Const> | forall k :: 0 <= k < |p| && p[k].CDbl? ==> IsLiteral(p[k].d)

  datatype Gen = Gen(code: seq<Instr>, pool: Pool)

  predicate SameConst(fp: Float, a: Const, b: Const) {
    match (a, b)
    case (CInt(i), CInt(j)) => i == j
    case (CDbl(d), CDbl(e)) => fp.rel(Eq, d, e)
    case _ => false
  }

  /** Index of the first pool entry the generator considers equal to `c`, or the pool's length. */
  function FindConst(fp: Float, pool: seq<Const>, c: Const): (k: nat)
    ensures k <= |pool|
    ensures k < |pool| ==> SameConst(fp, pool[k], c)
    ensures forall j :: 0 <= j < k ==> !SameConst(fp, pool[j], c)
  {
    if pool == [] || SameConst(fp, pool[0], c) then 0 else 1 + FindConst(fp, pool[1..], c)
  }

  function Intern(fp: Float, pool: Pool, c: Const): Pool
    requires c.CDbl? ==> IsLiteral(c.d)
  {
    if FindConst(fp, pool, c) < |pool| then pool else pool + [c]
  }

  /** The value of constant `c`, pushed from the pool. */
  function PushConst(fp: Float, pool: Pool, c: Const): Gen
    requires c.CDbl? ==> IsLiteral(c.d)
  {
    Gen([OpPushC(FindConst(fp, pool, c))], Intern(fp, pool, c))
  }

  const INT_MIN: int := -TWO_31
  const INT_MAX: int := TWO_31 - 1

  function GenInt(fp: Float, pool: Pool, v: int): Gen {
    if INT_MIN <= v <= INT_MAX then Gen([OpPushI(v)], pool) else PushConst(fp, pool, CInt(v))
  }

  function GenE(fp: Float, e: Expr, pool: Pool): (g: Gen)
    ensures pool <= g.pool && g.code != []
    decreases e, 1
  {
    match e
    case IntLit(i) => GenInt(fp, pool, i)
    case DblLit(d) => PushConst(fp, pool, CDbl(d))
    case Var(slot, _) => Gen([OpLoadL(slot)], pool)
    case Index(a, i) =>
      var g := GenE(fp, a, pool);
      var h := GenE(fp, i, g.pool);
      Gen(g.code + h.code + [OpALoad], h.pool)
    case I2D(a) => var g := GenE(fp, a, pool); Gen(g.code + [OpI2D], g.pool)
    case D2I(a) => var g := GenE(fp, a, pool); Gen(g.code + [OpD2I], g.pool)
    case Neg(a) => var g := GenE(fp, a, pool); Gen(g.code + [OpNeg], g.pool)
    case Bin(op, a, b, _) =>
      var g := GenE(fp, a, pool);
      var h := GenE(fp, b, g.pool);
      Gen(g.code + h.code + [OpBin(op)], h.pool)
    case Call(f, args, _) =>
      var g := GenArgs(fp, args, pool);
      Gen(g.code + [OpCall(f, |args|)], g.pool)
  }

  function GenArgs(fp: Float, es: seq<Expr>, pool: Pool): (g: Gen)
    ensures pool <= g.pool
    decreases es, 0
  {
    if es == [] then Gen([], pool)
    else
      var g := GenE(fp, es[0], pool);
      var h := GenArgs(fp, es[1..], g.pool);
      Gen(g.code + h.code, h.pool)
  }

  /** Code for a scalar declaration's value. */
  function GenInit(fp: Float, ty: Type, init: Option<Expr>, pool: Pool): (g: Gen)
    ensures pool <= g.pool
  {
    match init
    case Some(e) => GenE(fp, e, pool)
    case None => if ty.TDouble? then PushConst(fp, pool, CDbl(0)) else Gen([OpPushI(0)], pool)
  }

  /** Code for `st` placed at address `pc`. */
  function GenS(fp: Float, st: Stmt, pc: nat, pool: Pool): (g: Gen)
    ensures pool <= g.pool
    decreases st, 1
  {
    match st
    case Block(body) => GenSeq(fp, body, pc, pool)
    case DeclArray(_, slot, len) =>
      var g := GenE(fp, len, pool);
      Gen(g.code + [OpNewArr, OpStoreL(slot)], g.pool)
    case Decl(ty, slot, init) =>
      var g := GenInit(fp, ty, init, pool);
      Gen(g.code + [OpStoreL(slot)], g.pool)
    case Assign(slot, e) =>
      var g := GenE(fp, e, pool);
      Gen(g.code + [OpStoreL(slot)], g.pool)
    case AssignIndex(a, i, e) =>
      var g := GenE(fp, a, pool);
      var h := GenE(fp, i, g.pool);
      var v := GenE(fp, e, h.pool);
      Gen(g.code + h.code + v.code + [OpAStore], v.pool)
    case If(c, thn, els) =>
      var g := GenE(fp, c, pool);
      var t := GenS(fp, thn, pc + |g.code| + 1, g.pool);
      var afterThen := pc + |g.code| + 1 + |t.code|;
      (match els
       case None => Gen(g.code + [OpJz(afterThen)] + t.code, t.pool)
       case Some(st2) =>
         var e := GenS(fp, st2, afterThen + 1, t.pool);
         Gen(g.code + [OpJz(afterThen + 1)] + t.code + [OpJmp(afterThen + 1 + |e.code|)] + e.code, e.pool))
    case While(c, body) =>
      var g := GenE(fp, c, pool);
      var b := GenS(fp, body, pc + |g.code| + 1, g.pool);
      Gen(g.code + [OpJz(pc + |g.code| + 1 + |b.code| + 1)] + b.code + [OpJmp(pc)], b.pool)
    case Return(value) =>
      (match value
       case None => Gen([OpPushI(0), OpRet], pool)
       case Some(e) => var g := GenE(fp, e, pool); Gen(g.code + [OpRet], g.pool))
    case ExprStmt(e) =>
      var g := GenE(fp, e, pool);
      Gen(g.code + [OpPop], g.pool)
    case Print(e) =>
      var g := GenE(fp, e, pool);
      Gen(g.code + [OpPrint], g.pool)
  }

  function GenSeq(fp: Float, ss: seq<Stmt>, pc: nat, pool: Pool): (g: Gen)
    ensures pool <= g.pool
    decreases ss, 0
  {
    if ss == [] then Gen([], pool)
    else
      var g := GenS(fp, ss[0], pc, pool);
      var h := GenSeq(fp, ss[1..], pc + |g.code|, g.pool);
      Gen(g.code + h.code, h.pool)
  }

  /** A function's code: its body, then a safety net that returns 0. */
  function GenFunc(fp: Float, f: Func, pool: Pool): (g: Gen)
    ensures pool <= g.pool
  {
    var g := GenS(fp, f.body, 0, pool);
    Gen(g.code + [OpPushI(0), OpRet], g.pool)
  }

  /** Names are cut to 63 characters: a longer name keeps its first 63. */
  function CutName(name: string): (n: string)
    ensures n <= name && |n| <= 63 && (n == name || |n| == 63)
  {
    if |name| <= 63 then name else name[..63]
  }

  /** The pool in front of function number `i`. */
  function PoolBefore(fp: Float, prog: Program, i: nat): (pool: Pool)
    requires i <= |prog|
  {
    if i == 0 then [] else GenFunc(fp, prog[i - 1], PoolBefore(fp, prog, i - 1)).pool
  }

  function GenRoutine(fp: Float, prog: Program, i: nat): Routine
    requires i < |prog|
  {
    var f := prog[i];
    Routine(CutName(f.name), f.nparams, f.nlocals, GenFunc(fp, f, PoolBefore(fp, prog, i)).code)
  }

  /** The last function among the first `n` whose (cut) name is `main`, or -1. */
  function EntryOf(prog: Program, n: nat): (e: int)
    requires n <= |prog|
    ensures -1 <= e < n
  {
    if n == 0 then -1
    else if CutName(prog[n - 1].name) == "main" then n - 1
    else EntryOf(prog, n - 1)
  }

  function GenProgram(fp: Float, prog: Program): Image {
    Image(PoolBefore(fp, prog, |prog|),
          seq(|prog|, i requires 0 <= i < |prog| => GenRoutine(fp, prog, i)),
          EntryOf(prog, |prog|))
  }

  // ----- operand stack height -----

  /** Highest number of operands `e` keeps on the stack at once. */
  function Peak(e: Expr): (n: nat)
    ensures n >= 1
    decreases e, 1
  {
    match e
    case IntLit(_) => 1
    case DblLit(_) => 1
    case Var(_, _) => 1
    case Index(a, i) => Max(Peak(a), 1 + Peak(i))
    case I2D(a) => Peak(a)
    case D2I(a) => Peak(a)
    case Neg(a) => Peak(a)
    case Bin(_, a, b, _) => Max(Peak(a), 1 + Peak(b))
    case Call(_, args, _) => Max(1, PeakArgs(args))
  }

  function PeakArgs(es: seq<Expr>): (n: nat)
    ensures n >= |es|
    decreases es, 0
  {
    if es == [] then 0 else Max(Peak(es[0]), 1 + PeakArgs(es[1..]))
  }

  function PeakS(st: Stmt): nat
    decreases st, 1
  {
    match st
    case Block(body) => PeakSeq(body)
    case DeclArray(_, _, len) => Peak(len)
    case Decl(_, _, init) => if init.Some? then Peak(init.value) else 1
    case Assign(_, e) => Peak(e)
    case AssignIndex(a, i, e) => Max(Peak(a), Max(1 + Peak(i), 2 + Peak(e)))
    case If(c, thn, els) => Max(Peak(c), Max(PeakS(thn), if els.Some? then PeakS(els.value) else 0))
    case While(c, body) => Max(Peak(c), PeakS(body))
    case Return(value) => if value.Some? then Peak(value.value) else 1
    case ExprStmt(e) => Peak(e)
    case Print(e) => Peak(e)
  }

  function PeakSeq(ss: seq<Stmt>): nat
    decreases ss, 0
  {
    if ss == [] then 0 else Max(PeakS(ss[0]), PeakSeq(ss[1..]))
  }

  /** No function body needs more operands than the machine's stack holds. */
  predicate FitsStack(prog: Program) {
    forall i :: 0 <= i < |prog| ==> PeakS(prog[i].body) <= STACK_MAX
  }
}
