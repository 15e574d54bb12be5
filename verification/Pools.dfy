/** The constant pool over a whole compilation: entries never change place, and none is stored twice. */
module Pools {
  import opened Values
  import opened Ast
  import opened Machine
  import opened Compile

  /** No entry equals, as the generator compares them, an earlier one. */
  ghost predicate NoRepeats(fp: Float, pool: seq<Const>) {
    forall i, j :: 0 <= i < j < |pool| ==> !SameConst(fp, pool[i], pool[j])
  }

  lemma InternKeeps(fp: Float, pool: Pool, c: Const)
    requires c.CDbl? ==> IsLiteral(c.d)
    requires NoRepeats(fp, pool)
    ensures NoRepeats(fp, Intern(fp, pool, c))
  {
  }

  lemma {:induction false} ExprKeeps(fp: Float, e: Expr, pool: Pool)
    requires NoRepeats(fp, pool)
    ensures NoRepeats(fp, GenE(fp, e, pool).pool)
    decreases e, 1
  {
    hide NoRepeats, Intern, FindConst;
    match e
    case IntLit(i) => InternKeeps(fp, pool, CInt(i));
    case DblLit(d) => InternKeeps(fp, pool, CDbl(d));
    case Var(_, _) =>
    case Index(a, i) =>
      ExprKeeps(fp, a, pool);
      ExprKeeps(fp, i, GenE(fp, a, pool).pool);
    case I2D(a) => ExprKeeps(fp, a, pool);
    case D2I(a) => ExprKeeps(fp, a, pool);
    case Neg(a) => ExprKeeps(fp, a, pool);
    case Bin(_, a, b, _) =>
      ExprKeeps(fp, a, pool);
      ExprKeeps(fp, b, GenE(fp, a, pool).pool);
    case Call(_, args, _) => ArgsKeep(fp, args, pool);
  }

  lemma {:induction false} ArgsKeep(fp: Float, es: seq<Expr>, pool: Pool)
    requires NoRepeats(fp, pool)
    ensures NoRepeats(fp, GenArgs(fp, es, pool).pool)
    decreases es, 0
  {
    hide NoRepeats;
    if es != [] {
      ExprKeeps(fp, es[0], pool);
      ArgsKeep(fp, es[1..], GenE(fp, es[0], pool).pool);
    }
  }

  lemma {:induction false} StmtKeeps(fp: Float, st: Stmt, pc: nat, pool: Pool)
    requires NoRepeats(fp, pool)
    ensures NoRepeats(fp, GenS(fp, st, pc, pool).pool)
    decreases st, 1
  {
    hide NoRepeats, Compile.GenE, Intern;
    match st
    case Block(body) => StmtsKeep(fp, body, pc, pool);
    case DeclArray(_, _, len) => ExprKeeps(fp, len, pool);
    case Decl(_, _, init) =>
      if init.Some? { ExprKeeps(fp, init.value, pool); } else { InternKeeps(fp, pool, CDbl(0)); }
    case Assign(_, e) => ExprKeeps(fp, e, pool);
    case AssignIndex(a, i, e) =>
      ExprKeeps(fp, a, pool);
      var g := GenE(fp, a, pool);
      ExprKeeps(fp, i, g.pool);
      ExprKeeps(fp, e, GenE(fp, i, g.pool).pool);
    case If(c, thn, els) =>
      ExprKeeps(fp, c, pool);
      var g := GenE(fp, c, pool);
      var p := pc + |g.code| + 1;
      StmtKeeps(fp, thn, p, g.pool);
      var t := GenS(fp, thn, p, g.pool);
      if els.Some? { StmtKeeps(fp, els.value, p + |t.code| + 1, t.pool); }
    case While(c, body) =>
      ExprKeeps(fp, c, pool);
      var g := GenE(fp, c, pool);
      StmtKeeps(fp, body, pc + |g.code| + 1, g.pool);
    case Return(value) => if value.Some? { ExprKeeps(fp, value.value, pool); }
    case ExprStmt(e) => ExprKeeps(fp, e, pool);
    case Print(e) => ExprKeeps(fp, e, pool);
  }

  lemma {:induction false} StmtsKeep(fp: Float, ss: seq<Stmt>, pc: nat, pool: Pool)
    requires NoRepeats(fp, pool)
    ensures NoRepeats(fp, GenSeq(fp, ss, pc, pool).pool)
    decreases ss, 0
  {
    hide NoRepeats, Compile.GenS;
    if ss != [] {
      StmtKeeps(fp, ss[0], pc, pool);
      var g := GenS(fp, ss[0], pc, pool);
      StmtsKeep(fp, ss[1..], pc + |g.code|, g.pool);
    }
  }

  lemma {:induction false} PoolsKeep(fp: Float, prog: Program, i: nat)
    requires i <= |prog|
    ensures NoRepeats(fp, PoolBefore(fp, prog, i))
  {
    hide Compile.GenS;
    if i > 0 {
      PoolsKeep(fp, prog, i - 1);
      StmtKeeps(fp, prog[i - 1].body, 0, PoolBefore(fp, prog, i - 1));
    }
  }

  /** A module's pool has no integer twice and, when doubles compare as IEEE 754 says, no double twice; the
      pool in front of each function is a prefix of it, so the indices that function uses stay right. */
  lemma PoolHasNoRepeats(fp: Float, prog: Program, f: nat)
    requires f <= |prog|
    ensures PoolBefore(fp, prog, f) <= GenProgram(fp, prog).consts
    ensures var pool := GenProgram(fp, prog).consts;
            forall i, j :: 0 <= i < j < |pool| && (pool[i].CInt? || EqIsIdentityOnLiterals(fp)) ==> pool[i] != pool[j]
  {
    PoolsKeep(fp, prog, |prog|);
    PoolGrows(fp, prog, f, |prog|);
    var pool := PoolBefore(fp, prog, |prog|);
    forall i, j | 0 <= i < j < |pool| && (pool[i].CInt? || EqIsIdentityOnLiterals(fp)) ensures pool[i] != pool[j] {
      assert !SameConst(fp, pool[i], pool[j]);
      if pool[i].CDbl? { assert IsLiteral(pool[i].d); }
    }
  }

  lemma {:induction false} PoolGrows(fp: Float, prog: Program, i: nat, j: nat)
    requires i <= j <= |prog|
    ensures PoolBefore(fp, prog, i) <= PoolBefore(fp, prog, j)
    decreases j
  {
    if i < j { PoolGrows(fp, prog, i, j - 1); }
  }
}
