/** The interpreter as it runs: one operand array and stack pointer per activation, a locals array, a byte
    cursor, and a heap and an output shared by all activations. */
module Svm {
  import opened Values
  import opened Bytes
  import opened Driver
  import opened Machine
  import opened Encode

  /** What executing `i` in state `c` came to: `c1`, or the failure in `err`. */
  ghost predicate Did(fp: Float, consts: seq<Const>, i: Instr, c: Cfg, err: Option<Res<Val>>, c1: Cfg) {
    Perform(fp, consts, i, c) == if err.Some? then Fault(err.value) else Go(c1)
  }

  class Interpreter {
    const fp: Float
    const prog: Prog
    var heap: seq<seq<Val>>
    var out: seq<Out>

    constructor (fp: Float, prog: Prog)
      ensures this.fp == fp && this.prog == prog && S() == Store([], [])
    {
      this.fp := fp;
      this.prog := prog;
      heap := [];
      out := [];
    }

    function S(): Store
      reads this
    {
      Store(heap, out)
    }

    /** State of an activation held in arrays. */
    ghost function Now(f: nat, p: nat, st: array<Val>, sp: nat, locals: array<Val>): Cfg
      reads this, st, locals
      requires sp <= st.Length
    {
      Cfg(f, p, st[..sp], locals[..], S())
    }

    /** PUSHC, PUSHI, LOADL. */
    method DoPush(i: Instr, ghost f: nat, ghost p: nat, st: array<Val>, sp: nat, locals: array<Val>)
      returns (err: Option<Res<Val>>, sp1: nat)
      requires i.OpPushC? || i.OpPushI? || i.OpLoadL?
      requires sp <= st.Length == STACK_MAX && st != locals
      modifies st
      ensures sp1 <= st.Length
      ensures Did(fp, prog.consts, i, old(Now(f, p, st, sp, locals)), err, Now(f, p, st, sp1, locals))
    {
      sp1 := sp;
      if sp >= STACK_MAX { return Some(Trap(StackOverflow, out)), sp; }
      var v: Val;
      match i {
        case OpPushC(k) =>
          if k >= |prog.consts| { return Some(Wrong), sp; }
          v := ConstVal(prog.consts[k]);
        case OpPushI(x) => v := VInt(x);
        case OpLoadL(slot) =>
          if slot >= locals.Length { return Some(Wrong), sp; }
          v := locals[slot];
      }
      st[sp] := v;
      sp1 := sp + 1;
      err := None;
      assert st[..sp1] == old(st[..sp]) + [v];
    }

    /** NEG, I2D, D2I, NEWARR: the top of the stack is replaced. */
    method DoUnary(i: Instr, ghost f: nat, ghost p: nat, st: array<Val>, sp: nat, ghost locals: array<Val>)
      returns (err: Option<Res<Val>>)
      requires i.OpNeg? || i.OpI2D? || i.OpD2I? || i.OpNewArr?
      requires sp <= st.Length == STACK_MAX && st != locals
      modifies st, this`heap
      ensures Did(fp, prog.consts, i, old(Now(f, p, st, sp, locals)), err, Now(f, p, st, sp, locals))
    {
      if sp == 0 { return Some(Trap(StackUnderflow, out)); }
      var a, v := st[sp - 1], ZERO;
      match i {
        case OpNeg => v := Negate(fp, a);
        case OpI2D => v := IntToDouble(fp, a);
        case OpD2I => v := DoubleToInt(fp, a);
        case OpNewArr =>
          var r := NewArray(fp, a, S());
          if r.IsFailure() { return Some(r); }
          heap := r.store.heap;
          v := r.val;
      }
      st[sp - 1] := v;
      err := None;
      assert st[..sp] == old(st[..sp])[..sp - 1] + [v];
    }

    /** The arithmetic and comparison instructions, and ALOAD. */
    method DoBinary(i: Instr, ghost f: nat, ghost p: nat, st: array<Val>, sp: nat, ghost locals: array<Val>)
      returns (err: Option<Res<Val>>, sp1: nat)
      requires i.OpBin? || i.OpALoad?
      requires sp <= st.Length == STACK_MAX && st != locals
      modifies st
      ensures sp1 <= st.Length
      ensures Did(fp, prog.consts, i, old(Now(f, p, st, sp, locals)), err, Now(f, p, st, sp1, locals))
    {
      sp1 := sp;
      if sp < 2 { return Some(Trap(StackUnderflow, out)), sp; }
      var b, a := st[sp - 1], st[sp - 2];
      var r := if i.OpBin? then DoBinop(fp, i.op, a, b, S()) else Load(fp, a, b, S());
      if r.IsFailure() { return Some(r), sp; }
      sp1 := sp - 1;
      st[sp - 2] := r.val;
      err := None;
      assert st[..sp1] == old(st[..sp])[..sp - 2] + [r.val];
    }

    /** STOREL, PRINT, POP, ASTORE: operands are consumed. */
    method DoSink(i: Instr, ghost f: nat, ghost p: nat, st: array<Val>, sp: nat, locals: array<Val>)
      returns (err: Option<Res<Val>>, sp1: nat)
      requires i.OpStoreL? || i.OpPrint? || i.OpPop? || i.OpAStore?
      requires sp <= st.Length == STACK_MAX && st != locals
      modifies locals, this
      ensures sp1 <= st.Length
      ensures Did(fp, prog.consts, i, old(Now(f, p, st, sp, locals)), err, Now(f, p, st, sp1, locals))
    {
      sp1 := sp;
      if sp < Pops(i) { return Some(Trap(StackUnderflow, out)), sp; }
      sp1 := sp - Pops(i);
      err := None;
      assert st[..sp][..sp1] == st[..sp1];
      var top := st[sp - 1];
      match i {
        case OpStoreL(slot) =>
          if slot >= locals.Length { return Some(Wrong), sp; }
          locals[slot] := top;
        case OpPrint => out := out + [Show(fp, top)];
        case OpPop =>
        case OpAStore =>
          var r := Save(fp, st[sp - 3], st[sp - 2], top, S());
          if r.IsFailure() { return Some(r.PropagateFailure()), sp; }
          heap := r.store.heap;
      }
    }

    /** The straight-line instructions. */
    method Operate(i: Instr, ghost f: nat, ghost p: nat, st: array<Val>, sp: nat, locals: array<Val>)
      returns (err: Option<Res<Val>>, sp1: nat)
      requires !i.OpJmp? && !i.OpJz? && !i.OpCall? && !i.OpRet? && !i.OpRetV? && !i.OpHalt?
      requires sp <= st.Length == STACK_MAX && st != locals
      modifies st, locals, this
      ensures sp1 <= st.Length
      ensures Did(fp, prog.consts, i, old(Now(f, p, st, sp, locals)), err, Now(f, p, st, sp1, locals))
    {
      hide Did;
      if i.OpPushC? || i.OpPushI? || i.OpLoadL? {
        err, sp1 := DoPush(i, f, p, st, sp, locals);
      } else if i.OpNeg? || i.OpI2D? || i.OpD2I? || i.OpNewArr? {
        err := DoUnary(i, f, p, st, sp, locals);
        sp1 := sp;
      } else if i.OpBin? || i.OpALoad? {
        err, sp1 := DoBinary(i, f, p, st, sp, locals);
      } else {
        err, sp1 := DoSink(i, f, p, st, sp, locals);
      }
    }

    /** calloc'd locals with the arguments copied in. */
    method NewFrame(nlocals: nat, args: seq<Val>) returns (locals: array<Val>)
      ensures fresh(locals) && locals[..] == Frame(nlocals, args)
    {
      locals := new Val[Max(nlocals, 1)](_ => ZERO);
      var i := 0;
      while i < |args| && i < nlocals
        invariant 0 <= i <= nlocals && i <= |args|
        invariant forall j :: 0 <= j < locals.Length ==> locals[j] == if j < i then args[j] else ZERO
      {
        locals[i] := args[i];
        i := i + 1;
      }
    }

    /** CALL: pops the arguments, runs the callee, pushes its result. */
    method DoCall(i: Instr, ghost f: nat, ghost p: nat, st: array<Val>, sp: nat, ghost locals: array<Val>, left: nat)
      returns (r: Res<Fin>, sp1: nat)
      requires i.OpCall? && sp <= st.Length == STACK_MAX && st != locals
      modifies this, st
      ensures sp1 <= STACK_MAX
      ensures match Perform(fp, prog.consts, i, old(Now(f, p, st, sp, locals)))
              case Fault(e) => !e.Ok? && r == e.PropagateFailure()
              case Enter(g, args, c1) =>
                && r == Run(VmB(fp, prog), left, g, args, c1.s)
                && (r.Ok? ==> Now(f, p, st, sp1, locals) == Resume(c1, r.val.v, r.store))
              case _ => false
      decreases left, 1
    {
      sp1 := sp;
      ghost var c := Now(f, p, st, sp, locals);
      if i.argc > MAX_ARGS { CallTooWide(fp, prog.consts, i, c); return Wrong, sp; }
      CallSteps(fp, prog.consts, i, c);
      hide Machine.Perform, Driver.Run;
      if sp < i.argc { return Trap(StackUnderflow, out), sp; }
      if sp - i.argc >= STACK_MAX { return Trap(StackOverflow, out), sp; }
      var base := sp - i.argc;
      assert st[base..sp] == c.stack[base..] && st[..base] == c.stack[..base];
      r := RunFunc(i.f, st[base..sp], left);
      if r.IsFailure() { return; }
      st[base] := r.val.v;
      sp1 := base + 1;
      assert st[..sp1] == c.stack[..base] + [r.val.v];
    }

    /** RET, RETV, HALT. */
    method Leave(i: Instr, ghost f: nat, ghost p: nat, st: array<Val>, sp: nat, ghost locals: array<Val>, left: nat)
      returns (r: Res<Fin>)
      requires (i.OpRet? || i.OpRetV? || i.OpHalt?) && sp <= st.Length
      ensures match Perform(fp, prog.consts, i, Now(f, p, st, sp, locals))
              case Fault(e) => !e.Ok? && r == e.PropagateFailure()
              case Stop(v, s) => r == Ok(Fin(v, left), s) && s == S()
              case _ => false
    {
      hide Machine.Perform;
      ReturnSteps(fp, prog.consts, i, Now(f, p, st, sp, locals));
      if !i.OpRet? { return Ok(Fin(ZERO, left), S()); }
      if sp == 0 { return Trap(StackUnderflow, out); }
      r := Ok(Fin(st[sp - 1], left), S());
    }

    /** `run_func`, for at most `k` instructions. */
    method RunFunc(f: nat, args: seq<Val>, k: nat) returns (r: Res<Fin>)
      modifies this
      ensures r == Run(VmB(fp, prog), k, f, args, old(S()))
      ensures r.Ok? ==> S() == r.store
      decreases k, 0
    {
      hide Fetch, Machine.Perform, Driver.Exec, Driver.Run;
      Begin(VmB(fp, prog), k, f, args, S());
      if f >= |prog.funcs| { return Wrong; }
      ghost var vm := VmB(fp, prog);
      ghost var whole := Run(vm, k, f, args, S());
      var code := prog.funcs[f].code;
      var locals := NewFrame(prog.funcs[f].nlocals, args);
      var st := new Val[STACK_MAX](_ => ZERO);
      var sp: nat, p: nat, left: nat := 0, 0, k;
      assert st[..0] == [];
      while left > 0
        invariant left <= k && sp <= STACK_MAX
        invariant Exec(vm, left, Now(f, p, st, sp, locals)) == whole
        decreases left
      {
        ghost var c := Now(f, p, st, sp, locals);
        Unroll(vm, left, c);
        left := left - 1;
        if p >= |code| { return Ok(Fin(ZERO, left), S()); }
        match Fetch(code, p) {
          case Short =>
            if 1 <= code[p] <= 2 && sp >= STACK_MAX { return Trap(StackOverflow, out); }
            return Trap(Truncated, out);
          case Overread => return Wrong;
          case Unknown => return Trap(BadOpcode, out);
          case Jump(off, next) =>
            if next + off < 0 { return Wrong; }
            p := next + off;
          case JumpIfZero(off, next) =>
            if sp == 0 { return Trap(StackUnderflow, out); }
            sp := sp - 1;
            assert st[..sp + 1][..sp] == st[..sp];
            p := next;
            if AsInt(fp, st[sp]) == 0 {
              if next + off < 0 { return Wrong; }
              p := next + off;
            }
          case Plain(i, next) =>
            p := next;
            if i.OpCall? {
              var v: Res<Fin>;
              v, sp := DoCall(i, f, next, st, sp, locals, left);
              if v.IsFailure() { return v; }
              left := v.val.left;
            } else if i.OpRet? || i.OpRetV? || i.OpHalt? {
              r := Leave(i, f, next, st, sp, locals, left);
              return;
            } else {
              assert !i.OpJmp? && !i.OpJz? by { PlainIsNoJump(code, c.pc); }
              var err, sp1 := Operate(i, f, next, st, sp, locals);
              if err.Some? {
                OperateFails(fp, prog.consts, i, c.(pc := next));
                return err.value.PropagateFailure();
              }
              sp := sp1;
            }
        }
      }
      return Timeout;
    }
  }

  lemma PlainIsNoJump(code: seq<Byte>, p: nat)
    requires p < |code|
    ensures var x := Fetch(code, p); x.Plain? ==> !x.i.OpJmp? && !x.i.OpJz?
  {
  }

  lemma CallTooWide(fp: Float, consts: seq<Const>, i: Instr, c: Cfg)
    requires i.OpCall? && i.argc > MAX_ARGS
    ensures Perform(fp, consts, i, c) == Fault(Wrong)
  {
  }

  lemma CallSteps(fp: Float, consts: seq<Const>, i: Instr, c: Cfg)
    requires i.OpCall? && i.argc <= MAX_ARGS
    ensures var n := |c.stack|;
            Perform(fp, consts, i, c) ==
            if n < i.argc then Fault(Trap(StackUnderflow, c.s.out))
            else if n - i.argc >= STACK_MAX then Fault(Trap(StackOverflow, c.s.out))
            else Enter(i.f, c.stack[n - i.argc..], c.(stack := c.stack[..n - i.argc]))
  {
  }

  lemma ReturnSteps(fp: Float, consts: seq<Const>, i: Instr, c: Cfg)
    requires i.OpRet? || i.OpRetV? || i.OpHalt?
    ensures Perform(fp, consts, i, c) ==
            if i.OpRet? && c.stack == [] then Fault(Trap(StackUnderflow, c.s.out))
            else Stop(if i.OpRet? then c.stack[|c.stack| - 1] else ZERO, c.s)
  {
  }

  lemma OperateFails(fp: Float, consts: seq<Const>, i: Instr, c: Cfg)
    ensures var a := Perform(fp, consts, i, c); a.Fault? ==> !a.r.Ok?
  {
  }
}
