/** Meaning of resolved programs: a fuel-bounded evaluator.  A loop iteration and a call each take one
    unit of fuel; `Timeout` only says that the fuel did not suffice. */
module Source {
  import opened Values
  import opened Ast

  /** How a statement ends: falling through with new locals, or leaving the function. */
  datatype Flow = Next(locals: seq<Val>) | Ret(v: Val)

  function EvalE(fp: Float, prog: Program, fuel: nat, e: Expr, l: seq<Val>, s: Store): Res<Val>
    decreases 2 * fuel, e, 1
  {
    match e
    case IntLit(i) => Ok(VInt(i), s)
    case DblLit(d) => Ok(VDbl(d), s)
    case Var(slot, _) => if slot < |l| then Ok(l[slot], s) else Wrong
    case Index(a, i) =>
      var (ref, s1) :- EvalE(fp, prog, fuel, a, l, s);
      var (idx, s2) :- EvalE(fp, prog, fuel, i, l, s1);
      Load(fp, ref, idx, s2)
    case I2D(a) =>
      var (v, s1) :- EvalE(fp, prog, fuel, a, l, s);
      Ok(IntToDouble(fp, v), s1)
    case D2I(a) =>
      var (v, s1) :- EvalE(fp, prog, fuel, a, l, s);
      Ok(DoubleToInt(fp, v), s1)
    case Neg(a) =>
      var (v, s1) :- EvalE(fp, prog, fuel, a, l, s);
      Ok(Negate(fp, v), s1)
    case Bin(op, a, b, _) =>
      var (x, s1) :- EvalE(fp, prog, fuel, a, l, s);
      var (y, s2) :- EvalE(fp, prog, fuel, b, l, s1);
      DoBinop(fp, op, x, y, s2)
    case Call(f, args, _) =>
      var (vs, s1) :- EvalArgs(fp, prog, fuel, args, l, s);
      if fuel == 0 then Timeout else Invoke(fp, prog, fuel - 1, f, vs, s1)
  }

  function EvalArgs(fp: Float, prog: Program, fuel: nat, es: seq<Expr>, l: seq<Val>, s: Store): (r: Res<seq<Val>>)
    ensures r.Ok? ==> |r.val| == |es|
    decreases 2 * fuel, es, 0
  {
    if es == [] then Ok([], s)
    else
      var (v, s1) :- EvalE(fp, prog, fuel, es[0], l, s);
      var (vs, s2) :- EvalArgs(fp, prog, fuel, es[1..], l, s1);
      Ok([v] + vs, s2)
  }

  /** Runs function number `f`; falling off the end returns integer 0. */
  function Invoke(fp: Float, prog: Program, fuel: nat, f: nat, args: seq<Val>, s: Store): Res<Val>
    decreases 2 * fuel + 1
  {
    if |args| > MAX_ARGS || f >= |prog| then Wrong
    else
      var (flow, s1) :- ExecS(fp, prog, fuel, prog[f].body, Frame(prog[f].nlocals, args), s);
      match flow
      case Next(_) => Ok(ZERO, s1)
      case Ret(v) => Ok(v, s1)
  }

  /** Writes a local slot. */
  function SetLocal(l: seq<Val>, slot: nat, v: Val, s: Store): Res<Flow> {
    if slot < |l| then Ok(Next(l[slot := v]), s) else Wrong
  }

  function ExecS(fp: Float, prog: Program, fuel: nat, st: Stmt, l: seq<Val>, s: Store): Res<Flow>
    decreases 2 * fuel, st, 1
  {
    match st
    case Block(body) => ExecSeq(fp, prog, fuel, body, l, s)
    case DeclArray(_, slot, len) =>
      var (n, s1) :- EvalE(fp, prog, fuel, len, l, s);
      var (ref, s2) :- NewArray(fp, n, s1);
      SetLocal(l, slot, ref, s2)
    case Decl(ty, slot, init) =>
      (match init
       case Some(e) =>
         var (v, s1) :- EvalE(fp, prog, fuel, e, l, s);
         SetLocal(l, slot, v, s1)
       case None => SetLocal(l, slot, if ty.TDouble? then VDbl(0) else ZERO, s))
    case Assign(slot, e) =>
      var (v, s1) :- EvalE(fp, prog, fuel, e, l, s);
      SetLocal(l, slot, v, s1)
    case AssignIndex(a, i, e) =>
      var (ref, s1) :- EvalE(fp, prog, fuel, a, l, s);
      var (idx, s2) :- EvalE(fp, prog, fuel, i, l, s1);
      var (v, s3) :- EvalE(fp, prog, fuel, e, l, s2);
      var (_, s4) :- Save(fp, ref, idx, v, s3);
      Ok(Next(l), s4)
    case If(c, thn, els) =>
      var (v, s1) :- EvalE(fp, prog, fuel, c, l, s);
      if AsInt(fp, v) != 0 then ExecS(fp, prog, fuel, thn, l, s1)
      else (match els
            case None => Ok(Next(l), s1)
            case Some(st2) => ExecS(fp, prog, fuel, st2, l, s1))
    case While(c, body) =>
      var (v, s1) :- EvalE(fp, prog, fuel, c, l, s);
      if AsInt(fp, v) == 0 then Ok(Next(l), s1)
      else
        var (flow, s2) :- ExecS(fp, prog, fuel, body, l, s1);
        if flow.Ret? then Ok(flow, s2)
        else if fuel == 0 then Timeout
        else ExecS(fp, prog, fuel - 1, st, flow.locals, s2)
    case Return(value) =>
      (match value
       case None => Ok(Ret(ZERO), s)
       case Some(e) =>
         var (v, s1) :- EvalE(fp, prog, fuel, e, l, s);
         Ok(Ret(v), s1))
    case ExprStmt(e) =>
      var (_, s1) :- EvalE(fp, prog, fuel, e, l, s);
      Ok(Next(l), s1)
    case Print(e) =>
      var (v, s1) :- EvalE(fp, prog, fuel, e, l, s);
      Ok(Next(l), s1.(out := s1.out + [Show(fp, v)]))
  }

  function ExecSeq(fp: Float, prog: Program, fuel: nat, ss: seq<Stmt>, l: seq<Val>, s: Store): Res<Flow>
    decreases 2 * fuel, ss, 0
  {
    if ss == [] then Ok(Next(l), s)
    else
      var (flow, s1) :- ExecS(fp, prog, fuel, ss[0], l, s);
      if flow.Ret? then Ok(flow, s1) else ExecSeq(fp, prog, fuel, ss[1..], flow.locals, s1)
  }
}
