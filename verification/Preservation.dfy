/** The generated code does what the tree means: same output, same value, same error, and it runs on
    exactly as long as evaluation does. */
module Preservation {
  import opened Values
  import opened Ast
  import opened Source
  import opened Driver
  import opened Machine
  import opened Compile
  import opened Pools

  /** The code of function `fn` has `code` at address `pc`. */
  ghost predicate Placed(image: Image, fn: nat, pc: nat, code: seq<Instr>) {
    && fn < |image.funcs|
    && pc + |code| <= |image.funcs[fn].code|
    && image.funcs[fn].code[pc..pc + |code|] == code
  }

  lemma Split(image: Image, fn: nat, pc: nat, a: seq<Instr>, b: seq<Instr>)
    requires Placed(image, fn, pc, a + b)
    ensures Placed(image, fn, pc, a) && Placed(image, fn, pc + |a|, b)
  {
    var code := image.funcs[fn].code;
    assert a == (a + b)[..|a|] == code[pc..pc + |a|];
    assert b == (a + b)[|a|..] == code[pc + |a|..pc + |a| + |b|];
  }

  /** One instruction is next. */
  lemma Next1(fp: Float, image: Image, c: Cfg, i: Instr)
    requires Placed(image, c.fn, c.pc, [i])
    ensures VmOf(fp, image).step(c) == Perform(fp, image.consts, i, c.(pc := c.pc + 1))
  {
    assert image.funcs[c.fn].code[c.pc] == image.funcs[c.fn].code[c.pc..c.pc + 1][0];
  }

  /** Pool entries denote the constants they were interned for. */
  lemma {:induction false} InternDenotes(fp: Float, pool: Pool, c: Const)
    requires EqIsIdentityOnLiterals(fp)
    requires c.CDbl? ==> IsLiteral(c.d)
    ensures var k := FindConst(fp, pool, c);
            k < |Intern(fp, pool, c)| && Intern(fp, pool, c)[k] == c
  {
  }

  ghost predicate Ready(fp: Float, prog: Program, image: Image) {
    EqIsIdentityOnLiterals(fp) && FitsStack(prog) && image == GenProgram(fp, prog)
  }

  /** Goal of a computation that has no value. */
  ghost function Bad<T>(fuel: nat, r: Res<T>): Goal
    requires !r.Ok?
  {
    if r.Timeout? then Spins(fuel) else Fails(r.PropagateFailure())
  }

  ghost function ExprGoal(c: Cfg, len: nat, fuel: nat, r: Res<Val>): Goal {
    if r.Ok? then At(c.(pc := c.pc + len, stack := c.stack + [r.val], s := r.store)) else Bad(fuel, r)
  }

  ghost function ArgsGoal(c: Cfg, len: nat, fuel: nat, r: Res<seq<Val>>): Goal {
    if r.Ok? then At(c.(pc := c.pc + len, stack := c.stack + r.val, s := r.store)) else Bad(fuel, r)
  }

  ghost function StmtGoal(c: Cfg, len: nat, fuel: nat, r: Res<Flow>): Goal {
    match r
    case Ok(Next(l), s) => At(c.(pc := c.pc + len, locals := l, s := s))
    case Ok(Ret(v), s) => Returns(v, s)
    case _ => Bad(fuel, r)
  }

  ghost function CallGoal(fuel: nat, r: Res<Val>): Goal {
    if r.Ok? then Returns(r.val, r.store) else Bad(fuel, r)
  }

  /** After getting to `c1`, the instruction there leads to `g`. */
  lemma ThenStep(vm: Vm, c: Cfg, n: nat, c1: Cfg, g: Goal)
    requires Leads(vm, c, n, At(c1))
    requires match vm.step(c1)
             case Go(c2) => g == At(c2)
             case Stop(v, s) => g == Returns(v, s)
             case Fault(r) => !r.Ok? && !r.Timeout? && g == Fails(r)
             case Enter(_, _, _) => false
    ensures Leads(vm, c, n + 1, g)
  {
    OneStep(vm, c1);
    Chain(vm, c, n, c1, 1, g);
  }

  lemma {:induction false} SimPushConst(fp: Float, prog: Program, image: Image, pool: Pool, k: Const, c: Cfg)
    requires Ready(fp, prog, image)
    requires k.CDbl? ==> IsLiteral(k.d)
    requires var g := PushConst(fp, pool, k); g.pool <= image.consts && Placed(image, c.fn, c.pc, g.code)
    requires |c.stack| < STACK_MAX
    ensures Leads(VmOf(fp, image), c, 1, At(c.(pc := c.pc + 1, stack := c.stack + [ConstVal(k)])))
  {
    InternDenotes(fp, pool, k);
    Next1(fp, image, c, OpPushC(FindConst(fp, pool, k)));
    OneStep(VmOf(fp, image), c);
  }

  /** The state after an expression has been evaluated. */
  ghost function After(c: Cfg, len: nat, r: Res<Val>): Cfg
    requires r.Ok?
  {
    c.(pc := c.pc + len, stack := c.stack + [r.val], s := r.store)
  }

  lemma NoSuchFunction(fp: Float, prog: Program, image: Image, f: nat, args: seq<Val>, s: Store)
    requires Ready(fp, prog, image) && f >= |prog|
    ensures VmOf(fp, image).start(f, args, s) == None
  {
  }

  /** A call of a function that does not exist. */
  lemma CallNowhere(vm: Vm, c: Cfg)
    requires var a := vm.step(c); a.Enter? && vm.start(a.f, a.args, a.c.s).None?
    ensures Leads(vm, c, 1, Fails(Wrong))
  {
  }

  lemma {:induction false} SimE(fp: Float, prog: Program, image: Image, fuel: nat, e: Expr, pool: Pool, c: Cfg)
    returns (n: nat)
    requires Ready(fp, prog, image)
    requires var g := GenE(fp, e, pool); g.pool <= image.consts && Placed(image, c.fn, c.pc, g.code)
    requires |c.stack| + Peak(e) <= STACK_MAX
    ensures Leads(VmOf(fp, image), c, n,
                  ExprGoal(c, |GenE(fp, e, pool).code|, fuel, EvalE(fp, prog, fuel, e, c.locals, c.s)))
    decreases 2 * fuel, e, 3
  {
    hide Driver.Leads, Driver.Exec, Machine.VmOf, Placed, Ready, Bad, Machine.Perform, Source.EvalE, Compile.GenE;
    if e.I2D? || e.D2I? || e.Neg? {
      n := SimUnaryExpr(fp, prog, image, fuel, e, pool, c);
    } else if e.Index? || e.Bin? {
      n := SimBinaryExpr(fp, prog, image, fuel, e, pool, c);
    } else if e.Call? {
      n := SimCallExpr(fp, prog, image, fuel, e, pool, c);
    } else {
      SimAtom(fp, prog, image, fuel, e, pool, c);
      n := 1;
    }
  }

  lemma {:induction false} SimUnaryExpr(fp: Float, prog: Program, image: Image, fuel: nat, e: Expr, pool: Pool, c: Cfg)
    returns (n: nat)
    requires Ready(fp, prog, image) && (e.I2D? || e.D2I? || e.Neg?)
    requires var g := GenE(fp, e, pool); g.pool <= image.consts && Placed(image, c.fn, c.pc, g.code)
    requires |c.stack| + Peak(e) <= STACK_MAX
    ensures Leads(VmOf(fp, image), c, n,
                  ExprGoal(c, |GenE(fp, e, pool).code|, fuel, EvalE(fp, prog, fuel, e, c.locals, c.s)))
    decreases 2 * fuel, e, 2
  {
    hide Driver.Leads, Driver.Exec, Machine.VmOf, Placed, Ready, Bad, Machine.Perform, Source.EvalArgs, Compile.GenArgs;
    match e
    case I2D(a) => n := SimUnary(fp, prog, image, fuel, e, a, OpI2D, pool, c);
    case D2I(a) => n := SimUnary(fp, prog, image, fuel, e, a, OpD2I, pool, c);
    case Neg(a) => n := SimUnary(fp, prog, image, fuel, e, a, OpNeg, pool, c);
  }

  lemma {:induction false} SimBinaryExpr(fp: Float, prog: Program, image: Image, fuel: nat, e: Expr, pool: Pool, c: Cfg)
    returns (n: nat)
    requires Ready(fp, prog, image) && (e.Index? || e.Bin?)
    requires var g := GenE(fp, e, pool); g.pool <= image.consts && Placed(image, c.fn, c.pc, g.code)
    requires |c.stack| + Peak(e) <= STACK_MAX
    ensures Leads(VmOf(fp, image), c, n,
                  ExprGoal(c, |GenE(fp, e, pool).code|, fuel, EvalE(fp, prog, fuel, e, c.locals, c.s)))
    decreases 2 * fuel, e, 2
  {
    hide Driver.Leads, Driver.Exec, Machine.VmOf, Placed, Ready, Bad, Machine.Perform, Source.EvalArgs, Compile.GenArgs;
    match e
    case Index(a, i) => n := SimBinary(fp, prog, image, fuel, e, a, i, OpALoad, pool, c);
    case Bin(op, a, b, _) => n := SimBinary(fp, prog, image, fuel, e, a, b, OpBin(op), pool, c);
  }

  lemma {:induction false} SimCallExpr(fp: Float, prog: Program, image: Image, fuel: nat, e: Expr, pool: Pool, c: Cfg)
    returns (n: nat)
    requires Ready(fp, prog, image) && e.Call?
    requires var g := GenE(fp, e, pool); g.pool <= image.consts && Placed(image, c.fn, c.pc, g.code)
    requires |c.stack| + Peak(e) <= STACK_MAX
    ensures Leads(VmOf(fp, image), c, n,
                  ExprGoal(c, |GenE(fp, e, pool).code|, fuel, EvalE(fp, prog, fuel, e, c.locals, c.s)))
    decreases 2 * fuel, e, 2
  {
    hide Driver.Leads, Driver.Exec, Machine.VmOf, Placed, Ready, Bad, Machine.Perform, Source.EvalArgs,
         Compile.GenArgs, Source.Invoke;
    n := SimArgsThenCall(fp, prog, image, fuel, e, pool, c);
  }

  lemma {:induction false} SimAtom(fp: Float, prog: Program, image: Image, fuel: nat, e: Expr, pool: Pool, c: Cfg)
    requires Ready(fp, prog, image) && (e.IntLit? || e.DblLit? || e.Var?)
    requires var g := GenE(fp, e, pool); g.pool <= image.consts && Placed(image, c.fn, c.pc, g.code)
    requires |c.stack| + Peak(e) <= STACK_MAX
    ensures Leads(VmOf(fp, image), c, 1,
                  ExprGoal(c, |GenE(fp, e, pool).code|, fuel, EvalE(fp, prog, fuel, e, c.locals, c.s)))
  {
    hide Driver.Leads, Driver.Exec, Machine.VmOf, Placed, Ready;
    var vm := VmOf(fp, image);
    match e
    case IntLit(i) =>
      if INT_MIN <= i <= INT_MAX {
        Next1(fp, image, c, OpPushI(i));
        OneStep(vm, c);
      } else {
        SimPushConst(fp, prog, image, pool, CInt(i), c);
      }
    case DblLit(d) => SimPushConst(fp, prog, image, pool, CDbl(d), c);
    case Var(slot, _) =>
      Next1(fp, image, c, OpLoadL(slot));
      OneStep(vm, c);
  }

  lemma {:induction false} SimArgsThenCall(fp: Float, prog: Program, image: Image, fuel: nat, e: Expr, pool: Pool,
                                           c: Cfg)
    returns (n: nat)
    requires Ready(fp, prog, image) && e.Call?
    requires var g := GenArgs(fp, e.args, pool);
             g.pool <= image.consts && Placed(image, c.fn, c.pc, g.code + [OpCall(e.f, |e.args|)])
    requires |c.stack| + Max(1, PeakArgs(e.args)) <= STACK_MAX
    ensures var g := GenArgs(fp, e.args, pool);
            var r := EvalArgs(fp, prog, fuel, e.args, c.locals, c.s);
            Leads(VmOf(fp, image), c, n,
                  ExprGoal(c, |g.code| + 1, fuel,
                           if !r.Ok? then r.PropagateFailure()
                           else if fuel == 0 then Timeout
                           else Invoke(fp, prog, fuel - 1, e.f, r.val, r.store)))
    decreases 2 * fuel, e, 1
  {
    hide Driver.Leads, Driver.Exec, Machine.VmOf, Placed, Ready, Source.EvalArgs, Compile.GenArgs, Source.Invoke;
    var vm := VmOf(fp, image);
    var g := GenArgs(fp, e.args, pool);
    Split(image, c.fn, c.pc, g.code, [OpCall(e.f, |e.args|)]);
    n := SimArgs(fp, prog, image, fuel, e.args, pool, c);
    var r := EvalArgs(fp, prog, fuel, e.args, c.locals, c.s);
    if !r.Ok? { return; }
    var c1 := c.(pc := c.pc + |g.code|, stack := c.stack + r.val, s := r.store);
    var m := SimCallInstr(fp, prog, image, fuel, e, e.f, r.val, c, c1);
    Chain(vm, c, n, c1, m,
          ExprGoal(c, |g.code| + 1, fuel,
                   if fuel == 0 then Timeout else Invoke(fp, prog, fuel - 1, e.f, r.val, r.store)));
    n := n + m;
  }

  ghost function EvalOne(fp: Float, prog: Program, fuel: nat, a: Expr, i: Instr, l: seq<Val>, s: Store): Res<Val> {
    var (v, s1) :- EvalE(fp, prog, fuel, a, l, s);
    Ok(if i.OpI2D? then IntToDouble(fp, v) else if i.OpD2I? then DoubleToInt(fp, v) else Negate(fp, v), s1)
  }

  lemma {:induction false} SimUnary(fp: Float, prog: Program, image: Image, fuel: nat, e: Expr, a: Expr, i: Instr,
                                    pool: Pool, c: Cfg)
    returns (n: nat)
    requires Ready(fp, prog, image)
    requires a < e && (i.OpI2D? || i.OpD2I? || i.OpNeg?)
    requires var g := GenE(fp, a, pool); g.pool <= image.consts && Placed(image, c.fn, c.pc, g.code + [i])
    requires |c.stack| + Peak(a) <= STACK_MAX
    ensures Leads(VmOf(fp, image), c, n,
                  ExprGoal(c, |GenE(fp, a, pool).code| + 1, fuel, EvalOne(fp, prog, fuel, a, i, c.locals, c.s)))
    decreases 2 * fuel, e, 1
  {
    hide Driver.Leads, Driver.Exec, Machine.VmOf, Placed, Ready, Source.EvalE, Source.ExecS, Compile.GenE, Compile.GenS;
    var g := GenE(fp, a, pool);
    Split(image, c.fn, c.pc, g.code, [i]);
    n := SimE(fp, prog, image, fuel, a, pool, c);
    var r := EvalE(fp, prog, fuel, a, c.locals, c.s);
    if !r.Ok? { return; }
    var c1 := After(c, |g.code|, r);
    Next1(fp, image, c1, i);
    assert Drop(c1.stack, 1) == c.stack;
    ThenStep(VmOf(fp, image), c, n, c1,
             ExprGoal(c, |g.code| + 1, fuel, EvalOne(fp, prog, fuel, a, i, c.locals, c.s)));
    n := n + 1;
  }

  /** Both operands, then an instruction that consumes them. */
  ghost function EvalTwo(fp: Float, prog: Program, fuel: nat, a: Expr, b: Expr, i: Instr, l: seq<Val>,
                         s: Store): Res<Val>
  {
    var (x, s1) :- EvalE(fp, prog, fuel, a, l, s);
    var (y, s2) :- EvalE(fp, prog, fuel, b, l, s1);
    if i.OpBin? then DoBinop(fp, i.op, x, y, s2) else Load(fp, x, y, s2)
  }

  lemma {:induction false} SimBinary(fp: Float, prog: Program, image: Image, fuel: nat, e: Expr, a: Expr, b: Expr,
                                     i: Instr, pool: Pool, c: Cfg)
    returns (n: nat)
    requires Ready(fp, prog, image)
    requires a < e && b < e && (i.OpALoad? || i.OpBin?)
    requires var g := GenE(fp, a, pool); var h := GenE(fp, b, g.pool);
             h.pool <= image.consts && Placed(image, c.fn, c.pc, g.code + h.code + [i])
    requires |c.stack| + Max(Peak(a), 1 + Peak(b)) <= STACK_MAX
    ensures var g := GenE(fp, a, pool); var h := GenE(fp, b, g.pool);
            Leads(VmOf(fp, image), c, n,
                  ExprGoal(c, |g.code| + |h.code| + 1, fuel, EvalTwo(fp, prog, fuel, a, b, i, c.locals, c.s)))
    decreases 2 * fuel, e, 1
  {
    hide Driver.Leads, Driver.Exec, Machine.VmOf, Placed, Ready, Source.EvalE, Source.ExecS, Compile.GenE, Compile.GenS;
    var vm := VmOf(fp, image);
    var g := GenE(fp, a, pool);
    var h := GenE(fp, b, g.pool);
    Split(image, c.fn, c.pc, g.code + h.code, [i]);
    Split(image, c.fn, c.pc, g.code, h.code);
    n := SimE(fp, prog, image, fuel, a, pool, c);
    var r := EvalE(fp, prog, fuel, a, c.locals, c.s);
    if !r.Ok? { return; }
    var c1 := After(c, |g.code|, r);
    var m := SimE(fp, prog, image, fuel, b, g.pool, c1);
    var r2 := EvalE(fp, prog, fuel, b, c.locals, r.store);
    Chain(vm, c, n, c1, m, ExprGoal(c1, |h.code|, fuel, r2));
    n := n + m;
    if !r2.Ok? { return; }
    var c2 := After(c1, |h.code|, r2);
    Next1(fp, image, c2, i);
    assert Drop(c2.stack, 2) == c.stack;
    ThenStep(vm, c, n, c2,
             ExprGoal(c, |g.code| + |h.code| + 1, fuel, EvalTwo(fp, prog, fuel, a, b, i, c.locals, c.s)));
    n := n + 1;
  }

  lemma {:induction false} SimArgs(fp: Float, prog: Program, image: Image, fuel: nat, es: seq<Expr>, pool: Pool, c: Cfg)
    returns (n: nat)
    requires Ready(fp, prog, image)
    requires var g := GenArgs(fp, es, pool); g.pool <= image.consts && Placed(image, c.fn, c.pc, g.code)
    requires |c.stack| + PeakArgs(es) <= STACK_MAX
    ensures Leads(VmOf(fp, image), c, n,
                  ArgsGoal(c, |GenArgs(fp, es, pool).code|, fuel, EvalArgs(fp, prog, fuel, es, c.locals, c.s)))
    decreases 2 * fuel, es, 0
  {
    hide Driver.Leads, Driver.Exec, Machine.VmOf, Placed, Ready, Source.EvalE, Compile.GenE;
    var vm := VmOf(fp, image);
    if es == [] {
      assert c.stack + [] == c.stack;
      Stay(vm, c);
      n := 0;
    } else {
      var g := GenE(fp, es[0], pool);
      var h := GenArgs(fp, es[1..], g.pool);
      Split(image, c.fn, c.pc, g.code, h.code);
      n := SimE(fp, prog, image, fuel, es[0], pool, c);
      var r := EvalE(fp, prog, fuel, es[0], c.locals, c.s);
      if r.Ok? {
        var c1 := c.(pc := c.pc + |g.code|, stack := c.stack + [r.val], s := r.store);
        var m := SimArgs(fp, prog, image, fuel, es[1..], g.pool, c1);
        var r2 := EvalArgs(fp, prog, fuel, es[1..], c.locals, r.store);
        Chain(vm, c, n, c1, m, ArgsGoal(c1, |h.code|, fuel, r2));
        n := n + m;
        if r2.Ok? { assert c1.stack + r2.val == c.stack + ([r.val] + r2.val); }
      }
    }
  }

  /** The CALL instruction at `c1`, with its arguments `vs` on top of `c`'s stack. */
  lemma {:induction false} SimCallInstr(fp: Float, prog: Program, image: Image, fuel: nat, e: Expr, f: nat,
                                        vs: seq<Val>, c: Cfg, c1: Cfg)
    returns (n: nat)
    requires Ready(fp, prog, image)
    requires Placed(image, c1.fn, c1.pc, [OpCall(f, |vs|)])
    requires c1 == c.(pc := c1.pc, stack := c.stack + vs, s := c1.s) && c.pc <= c1.pc
    requires |c.stack| < STACK_MAX
    ensures Leads(VmOf(fp, image), c1, n,
                  ExprGoal(c, c1.pc - c.pc + 1, fuel,
                           if fuel == 0 then Timeout else Invoke(fp, prog, fuel - 1, f, vs, c1.s)))
    decreases 2 * fuel, e, 0
  {
    hide Driver.Leads, Driver.Exec, Machine.VmOf, Placed, Ready;
    var vm := VmOf(fp, image);
    n := 0;
    if fuel == 0 {
      Stay(vm, c1);
    } else {
      Next1(fp, image, c1, OpCall(f, |vs|));
      OneStep(vm, c1);
      assert Drop(c1.stack, |vs|) == c.stack && c1.stack[|c.stack|..] == vs;
      if |vs| > MAX_ARGS {
        n := 1;
      } else {
        assert vm.step(c1) == Enter(f, vs, c.(pc := c1.pc + 1, s := c1.s));
        if f >= |prog| {
          NoSuchFunction(fp, prog, image, f, vs, c1.s);
          CallNowhere(vm, c1);
          n := 1;
        } else {
          n := SimCall(fp, prog, image, fuel - 1, f, vs, c1.s);
          var r := Invoke(fp, prog, fuel - 1, f, vs, c1.s);
          CallStep(vm, c1, n, CallGoal(fuel - 1, r));
          if r.Timeout? { SpinLonger(vm, c1, n, fuel - 1); } else { n := n + 1; }
        }
      }
    }
  }

  /** Where a function's code is, and the state its calls begin in. */
  lemma Layout(fp: Float, prog: Program, image: Image, f: nat, args: seq<Val>, s: Store)
    requires Ready(fp, prog, image) && f < |prog|
    ensures var g := GenS(fp, prog[f].body, 0, PoolBefore(fp, prog, f));
            && g.pool <= image.consts
            && Placed(image, f, 0, g.code + ([OpPushI(0)] + [OpRet]))
            && PeakS(prog[f].body) <= STACK_MAX
            && VmOf(fp, image).start(f, args, s) == Some(Cfg(f, 0, [], Frame(prog[f].nlocals, args), s))
  {
    hide Compile.GenS, Compile.PeakS;
    var pool := PoolBefore(fp, prog, f);
    var g := GenS(fp, prog[f].body, 0, pool);
    PoolGrows(fp, prog, f + 1, |prog|);
    assert image.funcs[f] == GenRoutine(fp, prog, f);
    assert [OpPushI(0), OpRet] == [OpPushI(0)] + [OpRet];
    var code := image.funcs[f].code;
    assert code[0..|code|] == code;
  }

  lemma {:induction false} SimCall(fp: Float, prog: Program, image: Image, fuel: nat, f: nat, args: seq<Val>, s: Store)
    returns (n: nat)
    requires Ready(fp, prog, image)
    requires |args| <= MAX_ARGS && f < |prog|
    ensures VmOf(fp, image).start(f, args, s).Some?
    ensures Leads(VmOf(fp, image), VmOf(fp, image).start(f, args, s).value, n,
                  CallGoal(fuel, Invoke(fp, prog, fuel, f, args, s)))
    decreases 2 * fuel + 1
  {
    hide Driver.Leads, Driver.Exec, Machine.VmOf, Placed, Ready, Source.EvalE, Source.ExecS, Compile.GenE, Compile.GenS;
    var vm := VmOf(fp, image);
    var c := Cfg(f, 0, [], Frame(prog[f].nlocals, args), s);
    Layout(fp, prog, image, f, args, s);
    var pool := PoolBefore(fp, prog, f);
    var g := GenS(fp, prog[f].body, 0, pool);
    Split(image, f, 0, g.code, [OpPushI(0)] + [OpRet]);
    n := SimS(fp, prog, image, fuel, prog[f].body, pool, c);
    var r := ExecS(fp, prog, fuel, prog[f].body, c.locals, s);
    if r.Ok? && r.val.Next? {
      Split(image, f, |g.code|, [OpPushI(0)], [OpRet]);
      var c1 := c.(pc := |g.code|, locals := r.val.locals, s := r.store);
      ThenReturnZero(fp, image, c, n, c1);
      n := n + 2;
    }
  }

  /** `PUSHI 0; RET` at `c1`. */
  lemma ThenReturnZero(fp: Float, image: Image, c: Cfg, n: nat, c1: Cfg)
    requires Leads(VmOf(fp, image), c, n, At(c1)) && c1.stack == []
    requires Placed(image, c1.fn, c1.pc, [OpPushI(0)]) && Placed(image, c1.fn, c1.pc + 1, [OpRet])
    ensures Leads(VmOf(fp, image), c, n + 2, Returns(ZERO, c1.s))
  {
    hide Driver.Leads, Driver.Exec, Machine.VmOf, Placed;
    var c2 := c1.(pc := c1.pc + 1, stack := c1.stack + [ZERO]);
    Next1(fp, image, c1, OpPushI(0));
    ThenStep(VmOf(fp, image), c, n, c1, At(c2));
    Next1(fp, image, c2, OpRet);
    ThenStep(VmOf(fp, image), c, n + 1, c2, Returns(ZERO, c1.s));
  }

  /** How a statement that ends by executing `i` on one operand goes on. */
  ghost function TailFlow(fp: Float, i: Instr, l: seq<Val>, v: Val, s: Store): Res<Flow> {
    match i
    case OpStoreL(slot) => SetLocal(l, slot, v, s)
    case OpRet => Ok(Ret(v), s)
    case OpPrint => Ok(Next(l), s.(out := s.out + [Show(fp, v)]))
    case _ => Ok(Next(l), s)
  }

  /** Evaluates `e` and then executes `i`, which ends the statement. */
  lemma {:induction false} SimTail(fp: Float, prog: Program, image: Image, fuel: nat, e: Expr, i: Instr, pool: Pool,
                                   c: Cfg)
    returns (n: nat)
    requires Ready(fp, prog, image) && (i.OpStoreL? || i.OpRet? || i.OpPrint? || i.OpPop?)
    requires var g := GenE(fp, e, pool); g.pool <= image.consts && Placed(image, c.fn, c.pc, g.code + [i])
    requires c.stack == [] && Peak(e) <= STACK_MAX
    ensures var r := EvalE(fp, prog, fuel, e, c.locals, c.s);
            Leads(VmOf(fp, image), c, n,
                  StmtGoal(c, |GenE(fp, e, pool).code| + 1, fuel,
                           if r.Ok? then TailFlow(fp, i, c.locals, r.val, r.store) else r.PropagateFailure()))
    decreases 2 * fuel, e, 4
  {
    hide Driver.Leads, Driver.Exec, Machine.VmOf, Placed, Ready, Source.EvalE, Source.ExecS, Compile.GenE, Compile.GenS;
    var h := GenE(fp, e, pool);
    Split(image, c.fn, c.pc, h.code, [i]);
    n := SimE(fp, prog, image, fuel, e, pool, c);
    var r := EvalE(fp, prog, fuel, e, c.locals, c.s);
    if !r.Ok? { return; }
    var c1 := After(c, |h.code|, r);
    Next1(fp, image, c1, i);
    assert Drop(c1.stack, 1) == [];
    ThenStep(VmOf(fp, image), c, n, c1,
             StmtGoal(c, |h.code| + 1, fuel, TailFlow(fp, i, c.locals, r.val, r.store)));
    n := n + 1;
  }

  /** A declaration without initialiser stores a zero of its type. */
  lemma {:induction false} SimZeroDecl(fp: Float, prog: Program, image: Image, ty: Type, slot: nat, pool: Pool, c: Cfg)
    requires Ready(fp, prog, image)
    requires var h := GenInit(fp, ty, None, pool);
             h.pool <= image.consts && Placed(image, c.fn, c.pc, h.code + [OpStoreL(slot)])
    requires c.stack == []
    ensures Leads(VmOf(fp, image), c, 2,
                  StmtGoal(c, 2, 0, SetLocal(c.locals, slot, if ty.TDouble? then VDbl(0) else ZERO, c.s)))
  {
    hide Driver.Leads, Driver.Exec, Machine.VmOf, Placed, Ready;
    var h := GenInit(fp, ty, None, pool);
    var v := if ty.TDouble? then VDbl(0) else ZERO;
    Split(image, c.fn, c.pc, h.code, [OpStoreL(slot)]);
    if ty.TDouble? {
      SimPushConst(fp, prog, image, pool, CDbl(0), c);
    } else {
      Next1(fp, image, c, OpPushI(0));
      OneStep(VmOf(fp, image), c);
    }
    ThenStoreLocal(fp, image, c, 1, 1, slot, v, c.s, 0);
  }

  /** `v` has just been pushed; STOREL is next. */
  lemma ThenStoreLocal(fp: Float, image: Image, c: Cfg, n: nat, len: nat, slot: nat, v: Val, s: Store, fuel: nat)
    requires c.stack == [] && Placed(image, c.fn, c.pc + len, [OpStoreL(slot)])
    requires Leads(VmOf(fp, image), c, n, At(c.(pc := c.pc + len, stack := c.stack + [v], s := s)))
    ensures Leads(VmOf(fp, image), c, n + 1, StmtGoal(c, len + 1, fuel, SetLocal(c.locals, slot, v, s)))
  {
    hide Driver.Leads, Driver.Exec, Machine.VmOf, Placed;
    var c1 := c.(pc := c.pc + len, stack := c.stack + [v], s := s);
    Next1(fp, image, c1, OpStoreL(slot));
    assert Drop(c1.stack, 1) == [];
    ThenStep(VmOf(fp, image), c, n, c1, StmtGoal(c, len + 1, fuel, SetLocal(c.locals, slot, v, s)));
  }

  lemma {:induction false} SimS(fp: Float, prog: Program, image: Image, fuel: nat, st: Stmt, pool: Pool, c: Cfg)
    returns (n: nat)
    requires Ready(fp, prog, image)
    requires var g := GenS(fp, st, c.pc, pool); g.pool <= image.consts && Placed(image, c.fn, c.pc, g.code)
    requires c.stack == [] && PeakS(st) <= STACK_MAX
    ensures Leads(VmOf(fp, image), c, n,
                  StmtGoal(c, |GenS(fp, st, c.pc, pool).code|, fuel, ExecS(fp, prog, fuel, st, c.locals, c.s)))
    decreases 2 * fuel, st, 2
  {
    hide Driver.Leads, Driver.Exec, Machine.VmOf, Placed, Ready, Source.EvalE, Compile.GenE, Compile.Peak;
    match st
    case Block(body) => n := SimSeq(fp, prog, image, fuel, body, pool, c);
    case If(_, _, _) => n := SimIf(fp, prog, image, fuel, st, pool, c);
    case While(_, _) => n := SimWhile(fp, prog, image, fuel, st, pool, c);
    case _ => n := SimSimple(fp, prog, image, fuel, st, pool, c);
  }

  lemma {:induction false} SimIf(fp: Float, prog: Program, image: Image, fuel: nat, st: Stmt, pool: Pool, c: Cfg)
    returns (n: nat)
    requires Ready(fp, prog, image) && st.If?
    requires var g := GenS(fp, st, c.pc, pool); g.pool <= image.consts && Placed(image, c.fn, c.pc, g.code)
    requires c.stack == [] && PeakS(st) <= STACK_MAX
    ensures Leads(VmOf(fp, image), c, n,
                  StmtGoal(c, |GenS(fp, st, c.pc, pool).code|, fuel, ExecS(fp, prog, fuel, st, c.locals, c.s)))
    decreases 2 * fuel, st, 1
  {
    hide Driver.Leads, Driver.Exec, Machine.VmOf, Placed, Ready, Source.EvalE, Compile.GenE, Compile.Peak;
    if st.els.None? {
      n := SimIfThen(fp, prog, image, fuel, st, pool, c);
    } else {
      n := SimIfElse(fp, prog, image, fuel, st, pool, c);
    }
  }

  /** Statements without statements inside. */
  lemma {:induction false} SimSimple(fp: Float, prog: Program, image: Image, fuel: nat, st: Stmt, pool: Pool, c: Cfg)
    returns (n: nat)
    requires Ready(fp, prog, image) && !st.Block? && !st.If? && !st.While?
    requires var g := GenS(fp, st, c.pc, pool); g.pool <= image.consts && Placed(image, c.fn, c.pc, g.code)
    requires c.stack == [] && PeakS(st) <= STACK_MAX
    ensures Leads(VmOf(fp, image), c, n,
                  StmtGoal(c, |GenS(fp, st, c.pc, pool).code|, fuel, ExecS(fp, prog, fuel, st, c.locals, c.s)))
    decreases 2 * fuel, st, 1
  {
    hide Driver.Leads, Driver.Exec, Machine.VmOf, Placed, Ready, Source.EvalE, Compile.GenE, Compile.Peak;
    match st
    case Assign(slot, e) => n := SimTail(fp, prog, image, fuel, e, OpStoreL(slot), pool, c);
    case ExprStmt(e) => n := SimTail(fp, prog, image, fuel, e, OpPop, pool, c);
    case Print(e) => n := SimTail(fp, prog, image, fuel, e, OpPrint, pool, c);
    case DeclArray(_, slot, len) => n := SimDeclArray(fp, prog, image, fuel, slot, len, pool, c);
    case AssignIndex(a, i, e) => n := SimAssignIndex(fp, prog, image, fuel, st, pool, c);
    case Return(value) =>
      if value.Some? {
        n := SimTail(fp, prog, image, fuel, value.value, OpRet, pool, c);
      } else {
        assert [OpPushI(0), OpRet] == [OpPushI(0)] + [OpRet];
        Split(image, c.fn, c.pc, [OpPushI(0)], [OpRet]);
        Stay(VmOf(fp, image), c);
        ThenReturnZero(fp, image, c, 0, c);
        n := 2;
      }
    case Decl(ty, slot, init) =>
      if init.Some? {
        n := SimTail(fp, prog, image, fuel, init.value, OpStoreL(slot), pool, c);
      } else {
        SimZeroDecl(fp, prog, image, ty, slot, pool, c);
        n := 2;
      }
  }

  /** Once the length has been evaluated. */
  lemma AfterLength(fp: Float, image: Image, fuel: nat, slot: nat, c: Cfg, len: nat, r: Res<Val>,
                    n: nat) returns (n1: nat)
    requires r.Ok? && c.stack == [] && Leads(VmOf(fp, image), c, n, At(After(c, len, r)))
    requires Placed(image, c.fn, c.pc + len, [OpNewArr]) && Placed(image, c.fn, c.pc + len + 1, [OpStoreL(slot)])
    ensures var a := NewArray(fp, r.val, r.store);
            Leads(VmOf(fp, image), c, n1,
                  StmtGoal(c, len + 2, fuel,
                           if a.Ok? then SetLocal(c.locals, slot, a.val, a.store) else a.PropagateFailure()))
  {
    hide Driver.Leads, Driver.Exec, Machine.VmOf, Placed, Values.NewArray;
    var vm := VmOf(fp, image);
    var c1 := After(c, len, r);
    Next1(fp, image, c1, OpNewArr);
    assert Drop(c1.stack, 1) == [];
    var a := NewArray(fp, r.val, r.store);
    if a.Ok? {
      ThenStep(vm, c, n, c1, At(After(c, len + 1, a)));
      ThenStoreLocal(fp, image, c, n + 1, len + 1, slot, a.val, a.store, fuel);
      n1 := n + 2;
    } else {
      ThenStep(vm, c, n, c1, Fails(a));
      n1 := n + 1;
    }
  }

  lemma {:induction false} SimDeclArray(fp: Float, prog: Program, image: Image, fuel: nat, slot: nat, len: Expr,
                                        pool: Pool, c: Cfg)
    returns (n: nat)
    requires Ready(fp, prog, image)
    requires var g := GenE(fp, len, pool);
             g.pool <= image.consts && Placed(image, c.fn, c.pc, g.code + [OpNewArr, OpStoreL(slot)])
    requires c.stack == [] && Peak(len) <= STACK_MAX
    ensures var r := EvalE(fp, prog, fuel, len, c.locals, c.s);
            var a := if r.Ok? then NewArray(fp, r.val, r.store) else r;
            Leads(VmOf(fp, image), c, n,
                  StmtGoal(c, |GenE(fp, len, pool).code| + 2, fuel,
                           if a.Ok? then SetLocal(c.locals, slot, a.val, a.store) else a.PropagateFailure()))
    decreases 2 * fuel, len, 4
  {
    hide Driver.Leads, Driver.Exec, Machine.VmOf, Placed, Ready, Source.EvalE, Source.ExecS, Compile.GenE,
         Compile.GenS, Values.NewArray;
    var vm := VmOf(fp, image);
    var h := GenE(fp, len, pool);
    assert h.code + [OpNewArr, OpStoreL(slot)] == (h.code + [OpNewArr]) + [OpStoreL(slot)];
    Split(image, c.fn, c.pc, h.code + [OpNewArr], [OpStoreL(slot)]);
    Split(image, c.fn, c.pc, h.code, [OpNewArr]);
    n := SimE(fp, prog, image, fuel, len, pool, c);
    var r := EvalE(fp, prog, fuel, len, c.locals, c.s);
    if r.Ok? { n := AfterLength(fp, image, fuel, slot, c, |h.code|, r, n); }
  }

  ghost function EvalThree(fp: Float, prog: Program, fuel: nat, a: Expr, i: Expr, e: Expr, l: seq<Val>,
                           s: Store): Res<Flow>
  {
    var (ref, s1) :- EvalE(fp, prog, fuel, a, l, s);
    var (idx, s2) :- EvalE(fp, prog, fuel, i, l, s1);
    var (v, s3) :- EvalE(fp, prog, fuel, e, l, s2);
    var (_, s4) :- Save(fp, ref, idx, v, s3);
    Ok(Next(l), s4)
  }

  lemma {:induction false} SimAssignIndex(fp: Float, prog: Program, image: Image, fuel: nat, st: Stmt, pool: Pool,
                                          c: Cfg)
    returns (n: nat)
    requires Ready(fp, prog, image) && st.AssignIndex?
    requires var g := GenE(fp, st.arr, pool); var h := GenE(fp, st.idx, g.pool); var k := GenE(fp, st.e, h.pool);
             k.pool <= image.consts && Placed(image, c.fn, c.pc, g.code + h.code + k.code + [OpAStore])
    requires c.stack == [] && Max(Peak(st.arr), Max(1 + Peak(st.idx), 2 + Peak(st.e))) <= STACK_MAX
    ensures var g := GenE(fp, st.arr, pool); var h := GenE(fp, st.idx, g.pool); var k := GenE(fp, st.e, h.pool);
            Leads(VmOf(fp, image), c, n,
                  StmtGoal(c, |g.code| + |h.code| + |k.code| + 1, fuel,
                           EvalThree(fp, prog, fuel, st.arr, st.idx, st.e, c.locals, c.s)))
    decreases 2 * fuel, st, 0
  {
    hide Driver.Leads, Driver.Exec, Machine.VmOf, Placed, Ready, Source.EvalE, Source.ExecS, Compile.GenE, Compile.GenS;
    var vm := VmOf(fp, image);
    var g := GenE(fp, st.arr, pool);
    var h := GenE(fp, st.idx, g.pool);
    var k := GenE(fp, st.e, h.pool);
    Split(image, c.fn, c.pc, g.code + h.code + k.code, [OpAStore]);
    Split(image, c.fn, c.pc, g.code + h.code, k.code);
    Split(image, c.fn, c.pc, g.code, h.code);
    n := SimE(fp, prog, image, fuel, st.arr, pool, c);
    var r := EvalE(fp, prog, fuel, st.arr, c.locals, c.s);
    if !r.Ok? { return; }
    var c1 := After(c, |g.code|, r);
    var m := SimE(fp, prog, image, fuel, st.idx, g.pool, c1);
    var r2 := EvalE(fp, prog, fuel, st.idx, c.locals, r.store);
    Chain(vm, c, n, c1, m, ExprGoal(c1, |h.code|, fuel, r2));
    n := n + m;
    if !r2.Ok? { return; }
    var c2 := After(c1, |h.code|, r2);
    m := SimE(fp, prog, image, fuel, st.e, h.pool, c2);
    var r3 := EvalE(fp, prog, fuel, st.e, c.locals, r2.store);
    Chain(vm, c, n, c2, m, ExprGoal(c2, |k.code|, fuel, r3));
    n := n + m;
    if !r3.Ok? { return; }
    var c3 := After(c2, |k.code|, r3);
    Next1(fp, image, c3, OpAStore);
    assert Drop(c3.stack, 3) == [];
    ThenStep(vm, c, n, c3,
             StmtGoal(c, |g.code| + |h.code| + |k.code| + 1, fuel,
                      EvalThree(fp, prog, fuel, st.arr, st.idx, st.e, c.locals, c.s)));
    n := n + 1;
  }

  /** The test of an `if` or `while`: falls through when non-zero, else jumps to `target`. */
  lemma {:induction false} SimTest(fp: Float, prog: Program, image: Image, fuel: nat, e: Expr, target: nat, pool: Pool,
                                   c: Cfg)
    returns (n: nat)
    requires Ready(fp, prog, image)
    requires var g := GenE(fp, e, pool); g.pool <= image.consts && Placed(image, c.fn, c.pc, g.code + [OpJz(target)])
    requires c.stack == [] && Peak(e) <= STACK_MAX
    ensures match EvalE(fp, prog, fuel, e, c.locals, c.s)
            case Ok(v, s) =>
              n >= 1 &&
              Leads(VmOf(fp, image), c, n, At(c.(s := s, pc := if AsInt(fp, v) == 0 then target
                                                             else c.pc + |GenE(fp, e, pool).code| + 1)))
            case Timeout => Leads(VmOf(fp, image), c, n, Spins(fuel))
            case Trap(m, o) => Leads(VmOf(fp, image), c, n, Fails(Trap(m, o)))
            case Wrong => Leads(VmOf(fp, image), c, n, Fails(Wrong))
    decreases 2 * fuel, e, 4
  {
    hide Driver.Leads, Driver.Exec, Machine.VmOf, Placed, Ready, Source.EvalE, Source.ExecS, Compile.GenE, Compile.GenS;
    var h := GenE(fp, e, pool);
    Split(image, c.fn, c.pc, h.code, [OpJz(target)]);
    n := SimE(fp, prog, image, fuel, e, pool, c);
    var r := EvalE(fp, prog, fuel, e, c.locals, c.s);
    if r.Ok? {
      var c1 := c.(pc := c.pc + |h.code|, stack := c.stack + [r.val], s := r.store);
      Next1(fp, image, c1, OpJz(target));
      assert Drop(c1.stack, 1) == [];
      ThenStep(VmOf(fp, image), c, n, c1,
               At(c.(s := r.store, pc := if AsInt(fp, r.val) == 0 then target else c1.pc + 1)));
      n := n + 1;
    }
  }

  lemma {:induction false} SimIfThen(fp: Float, prog: Program, image: Image, fuel: nat, st: Stmt, pool: Pool, c: Cfg)
    returns (n: nat)
    requires Ready(fp, prog, image) && st.If?
    requires var g := GenE(fp, st.cond, pool); var t := GenS(fp, st.thn, c.pc + |g.code| + 1, g.pool);
             var end := c.pc + |g.code| + 1 + |t.code|;
             t.pool <= image.consts && Placed(image, c.fn, c.pc, g.code + [OpJz(end)] + t.code)
    requires c.stack == [] && Peak(st.cond) <= STACK_MAX && PeakS(st.thn) <= STACK_MAX
    ensures var g := GenE(fp, st.cond, pool); var t := GenS(fp, st.thn, c.pc + |g.code| + 1, g.pool);
            var r := EvalE(fp, prog, fuel, st.cond, c.locals, c.s);
            Leads(VmOf(fp, image), c, n,
                  StmtGoal(c, |g.code| + 1 + |t.code|, fuel,
                           if !r.Ok? then r.PropagateFailure()
                           else if AsInt(fp, r.val) != 0 then ExecS(fp, prog, fuel, st.thn, c.locals, r.store)
                           else Ok(Next(c.locals), r.store)))
    decreases 2 * fuel, st, 0
  {
    hide Driver.Leads, Driver.Exec, Machine.VmOf, Placed, Ready, Source.EvalE, Source.ExecS, Compile.GenE, Compile.GenS;
    var vm := VmOf(fp, image);
    var g := GenE(fp, st.cond, pool);
    var t := GenS(fp, st.thn, c.pc + |g.code| + 1, g.pool);
    var end := c.pc + |g.code| + 1 + |t.code|;
    Split(image, c.fn, c.pc, g.code + [OpJz(end)], t.code);
    n := SimTest(fp, prog, image, fuel, st.cond, end, pool, c);
    var r := EvalE(fp, prog, fuel, st.cond, c.locals, c.s);
    if r.Ok? && AsInt(fp, r.val) != 0 {
      var c1 := c.(s := r.store, pc := c.pc + |g.code| + 1);
      var m := SimS(fp, prog, image, fuel, st.thn, g.pool, c1);
      Chain(vm, c, n, c1, m, StmtGoal(c1, |t.code|, fuel, ExecS(fp, prog, fuel, st.thn, c.locals, r.store)));
      n := n + m;
    }
  }

  lemma {:induction false} SimIfElse(fp: Float, prog: Program, image: Image, fuel: nat, st: Stmt, pool: Pool, c: Cfg)
    returns (n: nat)
    requires Ready(fp, prog, image) && st.If? && st.els.Some?
    requires var g := GenE(fp, st.cond, pool); var t := GenS(fp, st.thn, c.pc + |g.code| + 1, g.pool);
             var other := c.pc + |g.code| + 1 + |t.code| + 1; var e := GenS(fp, st.els.value, other, t.pool);
             && e.pool <= image.consts
             && Placed(image, c.fn, c.pc, g.code + [OpJz(other)] + t.code + [OpJmp(other + |e.code|)] + e.code)
    requires c.stack == [] && Peak(st.cond) <= STACK_MAX && PeakS(st.thn) <= STACK_MAX
             && PeakS(st.els.value) <= STACK_MAX
    ensures var g := GenE(fp, st.cond, pool); var t := GenS(fp, st.thn, c.pc + |g.code| + 1, g.pool);
            var e := GenS(fp, st.els.value, c.pc + |g.code| + 1 + |t.code| + 1, t.pool);
            var r := EvalE(fp, prog, fuel, st.cond, c.locals, c.s);
            Leads(VmOf(fp, image), c, n,
                  StmtGoal(c, |g.code| + 1 + |t.code| + 1 + |e.code|, fuel,
                           if !r.Ok? then r.PropagateFailure()
                           else if AsInt(fp, r.val) != 0 then ExecS(fp, prog, fuel, st.thn, c.locals, r.store)
                           else ExecS(fp, prog, fuel, st.els.value, c.locals, r.store)))
    decreases 2 * fuel, st, 0
  {
    hide Driver.Leads, Driver.Exec, Machine.VmOf, Placed, Ready, Source.EvalE, Source.ExecS, Compile.GenE, Compile.GenS;
    var vm := VmOf(fp, image);
    var g := GenE(fp, st.cond, pool);
    var t := GenS(fp, st.thn, c.pc + |g.code| + 1, g.pool);
    var other := c.pc + |g.code| + 1 + |t.code| + 1;
    var e := GenS(fp, st.els.value, other, t.pool);
    var jmp := OpJmp(other + |e.code|);
    Split(image, c.fn, c.pc, g.code + [OpJz(other)] + t.code + [jmp], e.code);
    Split(image, c.fn, c.pc, g.code + [OpJz(other)] + t.code, [jmp]);
    Split(image, c.fn, c.pc, g.code + [OpJz(other)], t.code);
    n := SimTest(fp, prog, image, fuel, st.cond, other, pool, c);
    var r := EvalE(fp, prog, fuel, st.cond, c.locals, c.s);
    if !r.Ok? { return; }
    if AsInt(fp, r.val) == 0 {
      var c1 := c.(s := r.store, pc := other);
      var m := SimS(fp, prog, image, fuel, st.els.value, t.pool, c1);
      Chain(vm, c, n, c1, m, StmtGoal(c1, |e.code|, fuel, ExecS(fp, prog, fuel, st.els.value, c.locals, r.store)));
      n := n + m;
    } else {
      var c1 := c.(s := r.store, pc := c.pc + |g.code| + 1);
      var m := SimS(fp, prog, image, fuel, st.thn, g.pool, c1);
      var r2 := ExecS(fp, prog, fuel, st.thn, c.locals, r.store);
      Chain(vm, c, n, c1, m, StmtGoal(c1, |t.code|, fuel, r2));
      n := n + m;
      if r2.Ok? && r2.val.Next? {
        var c2 := c1.(pc := other - 1, locals := r2.val.locals, s := r2.store);
        Next1(fp, image, c2, jmp);
        ThenStep(vm, c, n, c2, At(c2.(pc := other + |e.code|)));
        n := n + 1;
      }
    }
  }

  lemma {:induction false} SimWhile(fp: Float, prog: Program, image: Image, fuel: nat, st: Stmt, pool: Pool, c: Cfg)
    returns (n: nat)
    requires Ready(fp, prog, image) && st.While?
    requires var g := GenE(fp, st.cond, pool); var b := GenS(fp, st.body1, c.pc + |g.code| + 1, g.pool);
             var exit := c.pc + |g.code| + 1 + |b.code| + 1;
             b.pool <= image.consts && Placed(image, c.fn, c.pc, g.code + [OpJz(exit)] + b.code + [OpJmp(c.pc)])
    requires c.stack == [] && Peak(st.cond) <= STACK_MAX && PeakS(st.body1) <= STACK_MAX
    ensures var g := GenE(fp, st.cond, pool); var b := GenS(fp, st.body1, c.pc + |g.code| + 1, g.pool);
            Leads(VmOf(fp, image), c, n,
                  StmtGoal(c, |g.code| + 1 + |b.code| + 1, fuel, ExecS(fp, prog, fuel, st, c.locals, c.s)))
    decreases 2 * fuel, st, 0
  {
    hide Driver.Leads, Driver.Exec, Machine.VmOf, Placed, Ready, Source.EvalE, Source.ExecS, Compile.GenE, Compile.GenS;
    var vm := VmOf(fp, image);
    var g := GenE(fp, st.cond, pool);
    var b := GenS(fp, st.body1, c.pc + |g.code| + 1, g.pool);
    var exit := c.pc + |g.code| + 1 + |b.code| + 1;
    UnrollWhile(fp, prog, fuel, st, c.locals, c.s);
    Split(image, c.fn, c.pc, g.code + [OpJz(exit)] + b.code, [OpJmp(c.pc)]);
    Split(image, c.fn, c.pc, g.code + [OpJz(exit)], b.code);
    n := SimTest(fp, prog, image, fuel, st.cond, exit, pool, c);
    var r := EvalE(fp, prog, fuel, st.cond, c.locals, c.s);
    if !r.Ok? || AsInt(fp, r.val) == 0 { return; }
    var c1 := c.(s := r.store, pc := c.pc + |g.code| + 1);
    var m := SimS(fp, prog, image, fuel, st.body1, g.pool, c1);
    var r2 := ExecS(fp, prog, fuel, st.body1, c.locals, r.store);
    Chain(vm, c, n, c1, m, StmtGoal(c1, |b.code|, fuel, r2));
    n := n + m;
    if !r2.Ok? || r2.val.Ret? { return; }
    var c2 := c1.(pc := c1.pc + |b.code|, locals := r2.val.locals, s := r2.store);
    var c3 := c2.(pc := c.pc);
    Next1(fp, image, c2, OpJmp(c.pc));
    ThenStep(vm, c, n, c2, At(c3));
    n := n + 1;
    if fuel == 0 {
      Stay(vm, c3);
      Chain(vm, c, n, c3, 0, Spins(0));
    } else {
      m := SimWhile(fp, prog, image, fuel - 1, st, pool, c3);
      var r3 := ExecS(fp, prog, fuel - 1, st, c3.locals, c3.s);
      Chain(vm, c, n, c3, m, StmtGoal(c3, exit - c.pc, fuel - 1, r3));
      n := n + m;
      if r3.Timeout? {
        n := n - 1;
        SpinLonger(vm, c, n, fuel - 1);
      }
    }
  }

  /** A loop is its test, its body and, on one unit of fuel, the loop again. */
  lemma UnrollWhile(fp: Float, prog: Program, fuel: nat, st: Stmt, l: seq<Val>, s: Store)
    requires st.While?
    ensures var r := EvalE(fp, prog, fuel, st.cond, l, s);
            ExecS(fp, prog, fuel, st, l, s) ==
            if !r.Ok? then r.PropagateFailure()
            else if AsInt(fp, r.val) == 0 then Ok(Next(l), r.store)
            else
              var r2 := ExecS(fp, prog, fuel, st.body1, l, r.store);
              if !r2.Ok? || r2.val.Ret? then r2
              else if fuel == 0 then Timeout
              else ExecS(fp, prog, fuel - 1, st, r2.val.locals, r2.store)
  {
  }

  lemma {:induction false} SimSeq(fp: Float, prog: Program, image: Image, fuel: nat, ss: seq<Stmt>, pool: Pool, c: Cfg)
    returns (n: nat)
    requires Ready(fp, prog, image)
    requires var g := GenSeq(fp, ss, c.pc, pool); g.pool <= image.consts && Placed(image, c.fn, c.pc, g.code)
    requires c.stack == [] && PeakSeq(ss) <= STACK_MAX
    ensures Leads(VmOf(fp, image), c, n,
                  StmtGoal(c, |GenSeq(fp, ss, c.pc, pool).code|, fuel, ExecSeq(fp, prog, fuel, ss, c.locals, c.s)))
    decreases 2 * fuel, ss, 0
  {
    hide Driver.Leads, Driver.Exec, Machine.VmOf, Placed, Ready, Source.ExecS, Compile.GenS;
    var vm := VmOf(fp, image);
    n := 0;
    if ss == [] {
      Stay(vm, c);
    } else {
      var g := GenS(fp, ss[0], c.pc, pool);
      var h := GenSeq(fp, ss[1..], c.pc + |g.code|, g.pool);
      Split(image, c.fn, c.pc, g.code, h.code);
      n := SimS(fp, prog, image, fuel, ss[0], pool, c);
      var r := ExecS(fp, prog, fuel, ss[0], c.locals, c.s);
      if r.Ok? && r.val.Next? {
        var c1 := c.(pc := c.pc + |g.code|, locals := r.val.locals, s := r.store);
        var m := SimSeq(fp, prog, image, fuel, ss[1..], g.pool, c1);
        Chain(vm, c, n, c1, m,
              StmtGoal(c, |g.code| + |h.code|, fuel, ExecSeq(fp, prog, fuel, ss, c.locals, c.s)));
        n := n + m;
      }
    }
  }
}
