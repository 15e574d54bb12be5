/** The stack machine on instruction lists: what `run_func` does, one instruction at a time. */
module Machine {
  import opened Values
  import opened Driver

  datatype Instr =
    | OpPushC(k: nat) | OpPushI(i: int) | OpLoadL(slot: nat) | OpStoreL(slot: nat)
    | OpBin(op: Op) | OpNeg | OpI2D | OpD2I
    | OpJmp(target: nat) | OpJz(target: nat)
    | OpCall(f: nat, argc: nat) | OpRet | OpRetV
    | OpNewArr | OpALoad | OpAStore | OpPrint | OpPop | OpHalt

  datatype Const = CInt(i: int) | CDbl(d: Bits)

  function ConstVal(c: Const): Val {
    match c
    case CInt(i) => VInt(i)
    case CDbl(d) => VDbl(d)
  }

  datatype Routine = Routine(name: string, nparams: nat, nlocals: nat, code: seq<Instr>)

  /** A compiled module; `entry` is -1 when there is no `main`. */
  datatype Image = Image(consts: seq<Const>, funcs: seq<Routine>, entry: int)

  const STACK_MAX: nat := 4096

  function Push(c: Cfg, v: Val): Act {
    if |c.stack| >= STACK_MAX then Fault(Trap(StackOverflow, c.s.out))
    else Go(c.(stack := c.stack + [v]))
  }

  function PushResult(c: Cfg, r: Res<Val>): Act {
    if r.Ok? then Push(c.(s := r.store), r.val) else Fault(r)
  }

  function Drop(stack: seq<Val>, n: nat): seq<Val>
    requires n <= |stack|
  {
    stack[..|stack| - n]
  }

  function Step(fp: Float, image: Image, c: Cfg): Act {
    if c.fn >= |image.funcs| then Fault(Wrong)
    else
      var code := image.funcs[c.fn].code;
      if c.pc >= |code| then Stop(ZERO, c.s)
      else Perform(fp, image.consts, code[c.pc], c.(pc := c.pc + 1))
  }

  /** Effect of instruction `i`; the counter of `c` is already past it. */
  function Perform(fp: Float, consts: seq<Const>, i: Instr, c: Cfg): Act {
    var st := c.stack;
    var n := |st|;
    if n < Pops(i) && !(i.OpCall? && i.argc > MAX_ARGS) then Fault(Trap(StackUnderflow, c.s.out))
    else
      match i
      case OpPushC(k) =>
        if n < STACK_MAX && k >= |consts| then Fault(Wrong)
        else Push(c, if k < |consts| then ConstVal(consts[k]) else ZERO)
      case OpPushI(v) => Push(c, VInt(v))
      case OpLoadL(slot) =>
        if n < STACK_MAX && slot >= |c.locals| then Fault(Wrong)
        else Push(c, if slot < |c.locals| then c.locals[slot] else ZERO)
      case OpStoreL(slot) =>
        if slot >= |c.locals| then Fault(Wrong)
        else Go(c.(stack := Drop(st, 1), locals := c.locals[slot := st[n - 1]]))
      case OpBin(op) => PushResult(c.(stack := Drop(st, 2)), DoBinop(fp, op, st[n - 2], st[n - 1], c.s))
      case OpNeg => Push(c.(stack := Drop(st, 1)), Negate(fp, st[n - 1]))
      case OpI2D => Push(c.(stack := Drop(st, 1)), IntToDouble(fp, st[n - 1]))
      case OpD2I => Push(c.(stack := Drop(st, 1)), DoubleToInt(fp, st[n - 1]))
      case OpJmp(t) => Go(c.(pc := t))
      case OpJz(t) => Go(c.(pc := if AsInt(fp, st[n - 1]) == 0 then t else c.pc, stack := Drop(st, 1)))
      case OpCall(f, argc) =>
        if argc > MAX_ARGS then Fault(Wrong)
        else if n - argc >= STACK_MAX then Fault(Trap(StackOverflow, c.s.out))
        else Enter(f, st[n - argc..], c.(stack := Drop(st, argc)))
      case OpRet => Stop(st[n - 1], c.s)
      case OpRetV => Stop(ZERO, c.s)
      case OpHalt => Stop(ZERO, c.s)
      case OpNewArr => PushResult(c.(stack := Drop(st, 1)), NewArray(fp, st[n - 1], c.s))
      case OpALoad => PushResult(c.(stack := Drop(st, 2)), Load(fp, st[n - 2], st[n - 1], c.s))
      case OpAStore =>
        var r := Save(fp, st[n - 3], st[n - 2], st[n - 1], c.s);
        if r.Ok? then Go(c.(stack := Drop(st, 3), s := r.store)) else Fault(r.PropagateFailure())
      case OpPrint => Go(c.(stack := Drop(st, 1), s := c.s.(out := c.s.out + [Show(fp, st[n - 1])])))
      case OpPop => Go(c.(stack := Drop(st, 1)))
  }

  /** Operands an instruction takes from the stack. */
  function Pops(i: Instr): nat {
    match i
    case OpStoreL(_) => 1
    case OpBin(_) => 2
    case OpNeg => 1
    case OpI2D => 1
    case OpD2I => 1
    case OpJz(_) => 1
    case OpCall(_, argc) => argc
    case OpRet => 1
    case OpNewArr => 1
    case OpALoad => 2
    case OpAStore => 3
    case OpPrint => 1
    case OpPop => 1
    case _ => 0
  }

  function Start(image: Image, f: nat, args: seq<Val>, s: Store): Option<Cfg> {
    if f >= |image.funcs| then None
    else Some(Cfg(f, 0, [], Frame(image.funcs[f].nlocals, args), s))
  }

  /** The machine that runs `image`. */
  function VmOf(fp: Float, image: Image): Vm {
    Vm(c => Step(fp, image, c), (f: nat, args: seq<Val>, s: Store) => Start(image, f, args, s))
  }
}
