/** What single instructions do, said with the operands on top of the stack, and where the machine stops: at the end
    of the code, at bytes that are no instruction, and at files that hold no program.  The byte machine, the list
    machine and the interpreter share one definition of this. */
module MachineLaws {
  import opened Values
  import opened Driver
  import opened Machine
  import opened Bytes
  import opened Encode
  import opened ModuleFile
  import opened Backend

  /** `c` with `below + top` on the stack. */
  ghost predicate Holds(c: Cfg, below: seq<Val>, top: seq<Val>) {
    c.stack == below + top && |c.stack| <= 4096
  }

  /** 4096 operands fit; one more is a stack overflow. */
  lemma Pushes(fp: Float, consts: seq<Const>, i: Instr, c: Cfg, k: nat, n: int)
    ensures |c.stack| < 4096 ==> Perform(fp, consts, OpPushI(n), c) == Go(c.(stack := c.stack + [VInt(n)]))
    ensures |c.stack| < 4096 && k < |consts| ==>
              Perform(fp, consts, OpPushC(k), c) ==
              Go(c.(stack := c.stack + [if consts[k].CInt? then VInt(consts[k].i) else VDbl(consts[k].d)]))
    ensures |c.stack| < 4096 && k < |c.locals| ==>
              Perform(fp, consts, OpLoadL(k), c) == Go(c.(stack := c.stack + [c.locals[k]]))
    ensures |c.stack| == 4096 && (i.OpPushI? || i.OpPushC? || i.OpLoadL?) ==>
              Perform(fp, consts, i, c) == Fault(Trap(StackOverflow, c.s.out))
  {
  }

  /** Too few operands are a stack underflow, whatever else is wrong. */
  lemma TooFewOperands(fp: Float, consts: seq<Const>, i: Instr, c: Cfg)
    requires || (c.stack == [] && (i.OpStoreL? || i.OpNeg? || i.OpI2D? || i.OpD2I? || i.OpJz? || i.OpRet? ||
                                   i.OpNewArr? || i.OpPrint? || i.OpPop?))
             || (|c.stack| < 2 && (i.OpBin? || i.OpALoad?))
             || (|c.stack| < 3 && i.OpAStore?)
             || (i.OpCall? && |c.stack| < i.argc <= 64)
    ensures Perform(fp, consts, i, c) == Fault(Trap(StackUnderflow, c.s.out))
  {
  }

  /** One operand. */
  lemma OneOperand(fp: Float, consts: seq<Const>, c: Cfg, below: seq<Val>, v: Val, k: nat)
    requires Holds(c, below, [v])
    ensures k < |c.locals| ==>
              Perform(fp, consts, OpStoreL(k), c) == Go(c.(stack := below, locals := c.locals[k := v]))
    ensures Perform(fp, consts, OpNeg, c) == Go(c.(stack := below + [Negate(fp, v)]))
    ensures Perform(fp, consts, OpI2D, c) == Go(c.(stack := below + [IntToDouble(fp, v)]))
    ensures Perform(fp, consts, OpD2I, c) == Go(c.(stack := below + [DoubleToInt(fp, v)]))
    ensures Perform(fp, consts, OpPop, c) == Go(c.(stack := below))
    ensures Perform(fp, consts, OpPrint, c) == Go(c.(stack := below, s := c.s.(out := c.s.out + [Show(fp, v)])))
    ensures Perform(fp, consts, OpRet, c) == Stop(v, c.s)
  {
    assert c.stack[..|c.stack| - 1] == below && c.stack[|c.stack| - 1] == v;
  }

  /** A jump goes to its target; a conditional one drops the condition and goes there when that is 0. */
  lemma Jumps(fp: Float, consts: seq<Const>, c: Cfg, below: seq<Val>, v: Val, t: nat)
    ensures Perform(fp, consts, OpJmp(t), c) == Go(c.(pc := t))
    ensures Holds(c, below, [v]) ==>
              Perform(fp, consts, OpJz(t), c) ==
              if AsInt(fp, v) == 0 then Go(c.(pc := t, stack := below)) else Go(c.(stack := below))
  {
    if Holds(c, below, [v]) { assert c.stack[..|c.stack| - 1] == below && c.stack[|c.stack| - 1] == v; }
  }

  /** What an operation with result does to the state below its operands. */
  ghost function After(c: Cfg, below: seq<Val>, r: Res<Val>): Act {
    if r.Ok? then Go(c.(stack := below + [r.val], s := r.store)) else Fault(r)
  }

  /** Arrays and binary operations: the operand pushed last is on the right. */
  lemma Operations(fp: Float, consts: seq<Const>, c: Cfg, below: seq<Val>, a: Val, b: Val, op: Op)
    ensures Holds(c, below, [a]) ==> Perform(fp, consts, OpNewArr, c) == After(c, below, NewArray(fp, a, c.s))
    ensures Holds(c, below, [a, b]) ==>
              Perform(fp, consts, OpBin(op), c) == After(c, below, DoBinop(fp, op, a, b, c.s))
    ensures Holds(c, below, [a, b]) ==> Perform(fp, consts, OpALoad, c) == After(c, below, Load(fp, a, b, c.s))
  {
    hide DoBinop, Load, NewArray;
    if Holds(c, below, [a]) { assert c.stack[..|c.stack| - 1] == below && c.stack[|c.stack| - 1] == a; }
    if Holds(c, below, [a, b]) {
      assert c.stack[..|c.stack| - 2] == below && c.stack[|c.stack| - 2] == a && c.stack[|c.stack| - 1] == b;
    }
  }

  lemma Stores(fp: Float, consts: seq<Const>, c: Cfg, below: seq<Val>, ref: Val, idx: Val, v: Val)
    requires Holds(c, below, [ref, idx, v])
    ensures var r := Save(fp, ref, idx, v, c.s);
            Perform(fp, consts, OpAStore, c) ==
            if r.Ok? then Go(c.(stack := below, s := r.store)) else Fault(r.PropagateFailure())
  {
    hide Save;
    var n := |c.stack|;
    assert c.stack[..n - 3] == below && c.stack[n - 3] == ref && c.stack[n - 2] == idx && c.stack[n - 1] == v;
  }

  /** The arguments of a call are taken off the stack in the order they were pushed. */
  lemma Calls(fp: Float, consts: seq<Const>, c: Cfg, below: seq<Val>, args: seq<Val>, f: nat)
    requires Holds(c, below, args) && |args| <= 64 && |below| < 4096
    ensures Perform(fp, consts, OpCall(f, |args|), c) == Enter(f, args, c.(stack := below))
  {
    var n := |c.stack| - |args|;
    assert c.stack[..n] == below && c.stack[n..] == args;
  }

  /** Returning without a value, halting, and running off the end of the code all end with the integer 0. */
  lemma EndsWithZero(fp: Float, image: Image, consts: seq<Const>, c: Cfg)
    ensures Perform(fp, consts, OpRetV, c) == Stop(VInt(0), c.s) && Perform(fp, consts, OpHalt, c) == Stop(VInt(0), c.s)
    ensures c.fn < |image.funcs| && c.pc >= |image.funcs[c.fn].code| ==> Step(fp, image, c) == Stop(VInt(0), c.s)
  {
  }

  // ----- bytes that are no instruction -----

  /** The bytes an instruction with this opcode takes. */
  function Length(opcode: nat): nat {
    if opcode in {0, 1, 17, 18} then 5 else if opcode in {2, 3} then 3 else if opcode == 19 then 4 else 1
  }

  /** The machine stops at an opcode above 27, and at an operand that the code ends in; a push looks at the stack
      first, and the argument count of a call is read without looking. */
  lemma BadCode(fp: Float, prog: Prog, c: Cfg)
    requires c.fn < |prog.funcs| && c.pc < |prog.funcs[c.fn].code|
    ensures var code := prog.funcs[c.fn].code; var op, left := code[c.pc], |code| - c.pc;
            && (op > 27 ==> StepB(fp, prog, c) == Fault(Trap(BadOpcode, c.s.out)))
            && (left < Length(op) && op in {0, 3, 17, 18} ==> StepB(fp, prog, c) == Fault(Trap(Truncated, c.s.out)))
            && (left < Length(op) && op in {1, 2} ==>
                  StepB(fp, prog, c) == Fault(Trap(if |c.stack| < 4096 then Truncated else StackOverflow, c.s.out)))
            && (left < 3 && op == 19 ==> StepB(fp, prog, c) == Fault(Trap(Truncated, c.s.out)))
            && (left == 3 && op == 19 ==> StepB(fp, prog, c) == Fault(Wrong))
            && (Fetch(code, c.pc).Unknown? <==> op > 27)
            && (Fetch(code, c.pc).Short? || Fetch(code, c.pc).Overread? <==> left < Length(op))
  {
    hide Bytes.Get, Machine.Perform;
  }

  // ----- files without a program to run -----

  ghost function FirstState(p: Prog): Cfg
    requires p.entry < |p.funcs|
  {
    Cfg(p.entry, 0, [], Frame(p.funcs[p.entry].nlocals, []), Store([], []))
  }

  /** A file that does not load ends as loading did; a module whose entry is no function has no `main`; any other is
      run from its entry, without arguments, on an empty heap. */
  lemma FileStarts(fp: Float, buf: seq<Byte>, k: nat)
    ensures var r := LoadBytes(buf);
            && (r.Die? ==> RunFile(fp, buf, k) == Trap(r.msg, []))
            && (r.Overrun? ==> RunFile(fp, buf, k) == Wrong)
            && (r.Rd? && r.v.entry >= |r.v.funcs| ==> RunFile(fp, buf, k) == Trap(NoMain, []))
            && (r.Rd? && r.v.entry < |r.v.funcs| ==>
                  RunFile(fp, buf, k) == Outcome(Exec(VmB(fp, r.v), k, FirstState(r.v))))
  {
    hide LoadBytes, Driver.Exec;
  }
}
