/** Instruction lists as bytes, and the machine that executes the bytes with a cursor. */
module Encode {
  import opened Values
  import opened Bytes
  import opened Driver
  import opened Machine

  /** Opcode numbers, in the order of the format's enumeration. */
  function BinCode(op: Op): Byte {
    match op
    case Add => 4
    case Sub => 5
    case Mul => 6
    case Div => 7
    case Lt => 9
    case Gt => 10
    case Le => 11
    case Ge => 12
    case Eq => 13
    case Ne => 14
  }

  function OpCode(i: Instr): Byte {
    match i
    case OpPushC(_) => 0
    case OpPushI(_) => 1
    case OpLoadL(_) => 2
    case OpStoreL(_) => 3
    case OpBin(op) => BinCode(op)
    case OpNeg => 8
    case OpI2D => 15
    case OpD2I => 16
    case OpJmp(_) => 17
    case OpJz(_) => 18
    case OpCall(_, _) => 19
    case OpRet => 20
    case OpRetV => 21
    case OpNewArr => 22
    case OpALoad => 23
    case OpAStore => 24
    case OpPrint => 25
    case OpPop => 26
    case OpHalt => 27
  }

  function OperandBytes(i: Instr): nat {
    match i
    case OpPushC(_) => 4
    case OpPushI(_) => 4
    case OpJmp(_) => 4
    case OpJz(_) => 4
    case OpLoadL(_) => 2
    case OpStoreL(_) => 2
    case OpCall(_, _) => 3
    case _ => 0
  }

  function Size(i: Instr): nat { 1 + OperandBytes(i) }

  /** Byte offset of instruction `k`. */
  function Off(code: seq<Instr>, k: nat): nat
    requires k <= |code|
  {
    if k == 0 then 0 else Off(code, k - 1) + Size(code[k - 1])
  }

  /** Jumps name instructions of this list. */
  predicate Closed(code: seq<Instr>) {
    forall k :: 0 <= k < |code| ==> InRange(code[k], |code|)
  }

  predicate InRange(i: Instr, n: nat) {
    (i.OpJmp? ==> i.target < n) && (i.OpJz? ==> i.target < n)
  }

  /** Bytes of instruction `k`; a jump stores its distance from the instruction after it. */
  function EncodeAt(code: seq<Instr>, k: nat): (bs: seq<Byte>)
    requires k < |code| && Closed(code)
    ensures |bs| == Size(code[k])
  {
    var i := code[k];
    [OpCode(i)] +
    match i
    case OpPushC(c) => PutU32(c)
    case OpPushI(v) => PutI32(v)
    case OpLoadL(s) => PutU16(s)
    case OpStoreL(s) => PutU16(s)
    case OpCall(f, argc) => PutU16(f) + [argc % 256]
    case OpJmp(t) => PutI32(Off(code, t) - Off(code, k + 1))
    case OpJz(t) => PutI32(Off(code, t) - Off(code, k + 1))
    case _ => []
  }

  /** Bytes of the first `n` instructions. */
  function EncodeTo(code: seq<Instr>, n: nat): (bs: seq<Byte>)
    requires n <= |code| && Closed(code)
    ensures |bs| == Off(code, n)
  {
    if n == 0 then [] else EncodeTo(code, n - 1) + EncodeAt(code, n - 1)
  }

  function EncodeCode(code: seq<Instr>): seq<Byte>
    requires Closed(code)
  {
    EncodeTo(code, |code|)
  }

  lemma {:induction false} OffMonotone(code: seq<Instr>, a: nat, b: nat)
    requires a <= b <= |code|
    ensures Off(code, a) + (b - a) <= Off(code, b)
  {
    if a < b { OffMonotone(code, a, b - 1); }
  }

  /** Instruction `k` is found at its offset. */
  lemma {:induction false} EncodedAt(code: seq<Instr>, k: nat, n: nat)
    requires k < n <= |code| && Closed(code)
    ensures Off(code, k + 1) <= |EncodeTo(code, n)|
    ensures EncodeTo(code, n)[Off(code, k)..Off(code, k + 1)] == EncodeAt(code, k)
    decreases n
  {
    hide EncodeAt, Closed;
    var before := EncodeTo(code, n - 1);
    assert EncodeTo(code, n) == before + EncodeAt(code, n - 1);
    if k + 1 < n {
      EncodedAt(code, k, n - 1);
      OffMonotone(code, k, k + 1);
      assert (before + EncodeAt(code, n - 1))[Off(code, k)..Off(code, k + 1)] == before[Off(code, k)..Off(code, k + 1)];
    } else {
      assert |before| == Off(code, k) && |EncodeAt(code, k)| == Size(code[k]);
    }
  }

  // ----- the byte machine -----

  datatype LFunc = LFunc(name: string, nparams: nat, nlocals: nat, code: seq<Byte>)

  datatype Prog = Prog(consts: seq<Const>, funcs: seq<LFunc>, entry: nat)

  /** Result of reading one instruction: where the cursor is afterwards, and what to do.  A jump is
      relative to that cursor. */
  datatype Fetched =
    | Plain(i: Instr, next: nat)
    | Jump(off: int, next: nat)
    | JumpIfZero(off: int, next: nat)
    | Short
    | Overread
    | Unknown

  function BinOf(b: Byte): (op: Op)
    requires 4 <= b <= 7 || 9 <= b <= 14
  {
    if b == 4 then Add else if b == 5 then Sub else if b == 6 then Mul else if b == 7 then Div
    else if b == 9 then Lt else if b == 10 then Gt else if b == 11 then Le else if b == 12 then Ge
    else if b == 13 then Eq else Ne
  }

  function Fetch(code: seq<Byte>, p: nat): Fetched
    requires p < |code|
  {
    var b := code[p];
    var q := p + 1;
    if b == 0 then
      (match Field(code, q, 4, |code|) case None => Short case Some(v) => Plain(OpPushC(v), q + 4))
    else if b == 1 then
      (match Field(code, q, 4, |code|) case None => Short case Some(v) => Plain(OpPushI(Signed32(v)), q + 4))
    else if b == 2 then
      (match Field(code, q, 2, |code|) case None => Short case Some(v) => Plain(OpLoadL(v), q + 2))
    else if b == 3 then
      (match Field(code, q, 2, |code|) case None => Short case Some(v) => Plain(OpStoreL(v), q + 2))
    else if 4 <= b <= 7 || 9 <= b <= 14 then Plain(OpBin(BinOf(b)), q)
    else if b == 8 then Plain(OpNeg, q)
    else if b == 15 then Plain(OpI2D, q)
    else if b == 16 then Plain(OpD2I, q)
    else if b == 17 then
      (match Field(code, q, 4, |code|) case None => Short case Some(v) => Jump(Signed32(v), q + 4))
    else if b == 18 then
      (match Field(code, q, 4, |code|) case None => Short case Some(v) => JumpIfZero(Signed32(v), q + 4))
    else if b == 19 then
      (match Field(code, q, 2, |code|)
       case None => Short
       case Some(v) => if q + 2 >= |code| then Overread else Plain(OpCall(v, code[q + 2]), q + 3))
    else if b == 20 then Plain(OpRet, q)
    else if b == 21 then Plain(OpRetV, q)
    else if b == 22 then Plain(OpNewArr, q)
    else if b == 23 then Plain(OpALoad, q)
    else if b == 24 then Plain(OpAStore, q)
    else if b == 25 then Plain(OpPrint, q)
    else if b == 26 then Plain(OpPop, q)
    else if b == 27 then Plain(OpHalt, q)
    else Unknown
  }

  /** Moving the cursor; in front of the code it would read memory it does not own. */
  function MoveTo(c: Cfg, p: int): Act {
    if p < 0 then Fault(Wrong) else Go(c.(pc := p))
  }

  /** One instruction of the byte machine; `c.pc` is the cursor. */
  function StepB(fp: Float, prog: Prog, c: Cfg): Act {
    if c.fn >= |prog.funcs| then Fault(Wrong)
    else
      var code := prog.funcs[c.fn].code;
      if c.pc >= |code| then Stop(ZERO, c.s)
      else
        match Fetch(code, c.pc)
        case Plain(i, next) => Perform(fp, prog.consts, i, c.(pc := next))
        case Jump(off, next) => MoveTo(c, next + off)
        case JumpIfZero(off, next) =>
          if c.stack == [] then Fault(Trap(StackUnderflow, c.s.out))
          else
            var c1 := c.(pc := next, stack := Drop(c.stack, 1));
            if AsInt(fp, c.stack[|c.stack| - 1]) == 0 then MoveTo(c1, next + off) else Go(c1)
        case Short =>
          // PUSHI and LOADL look at the stack before they read their operand
          if 1 <= code[c.pc] <= 2 && |c.stack| >= STACK_MAX then Fault(Trap(StackOverflow, c.s.out))
          else Fault(Trap(Truncated, c.s.out))
        case Overread => Fault(Wrong)
        case Unknown => Fault(Trap(BadOpcode, c.s.out))
  }

  function StartB(prog: Prog, f: nat, args: seq<Val>, s: Store): Option<Cfg> {
    if f >= |prog.funcs| then None
    else Some(Cfg(f, 0, [], Frame(prog.funcs[f].nlocals, args), s))
  }

  function VmB(fp: Float, prog: Prog): Vm {
    Vm(c => StepB(fp, prog, c), (f: nat, args: seq<Val>, s: Store) => StartB(prog, f, args, s))
  }

  // ----- encoded code behaves like the list it was made from -----

  /** Every operand fits the field it is written to, and no jump is too far. */
  ghost predicate Encodable(code: seq<Instr>) {
    && Closed(code)
    && Off(code, |code|) < TWO_31
    && forall k :: 0 <= k < |code| ==> OperandFits(code[k])
  }

  predicate OperandFits(i: Instr) {
    match i
    case OpPushC(k) => k < TWO_32
    case OpPushI(v) => -TWO_31 <= v < TWO_31
    case OpLoadL(s) => s < TWO_16
    case OpStoreL(s) => s < TWO_16
    case OpCall(f, argc) => f < TWO_16 && argc < 256
    case _ => true
  }

  /** `prog` is `image` with every function's code encoded. */
  ghost predicate Encodes(image: Image, prog: Prog) {
    && prog.consts == image.consts
    && |prog.funcs| == |image.funcs|
    && forall f :: 0 <= f < |image.funcs| ==>
         && Encodable(image.funcs[f].code)
         && prog.funcs[f].nlocals == image.funcs[f].nlocals
         && prog.funcs[f].code == EncodeCode(image.funcs[f].code)
  }

  /** What `Fetch` finds at the offset of instruction `k`. */
  ghost function FetchedOf(code: seq<Instr>, k: nat): Fetched
    requires k < |code| && Closed(code)
  {
    var next := Off(code, k + 1);
    match code[k]
    case OpJmp(t) => Jump(Off(code, t) - next, next)
    case OpJz(t) => JumpIfZero(Off(code, t) - next, next)
    case i => Plain(i, next)
  }

  /** Distance stored in a jump. */
  ghost function Distance(code: seq<Instr>, k: nat): int
    requires k < |code| && Closed(code)
  {
    if code[k].OpJmp? || code[k].OpJz? then Off(code, code[k].target) - Off(code, k + 1) else 0
  }

  lemma {:induction false} FetchDecodes(code: seq<Instr>, k: nat)
    requires k < |code| && Encodable(code)
    ensures Off(code, k) < |EncodeCode(code)|
    ensures Fetch(EncodeCode(code), Off(code, k)) == FetchedOf(code, k)
  {
    hide Fetch;
    var bytes := EncodeCode(code);
    var p, q := Off(code, k), Off(code, k + 1);
    EncodedAt(code, k, |code|);
    var e := EncodeAt(code, k);
    var d := Distance(code, k);
    assert bytes[p] == bytes[p..q][0] && bytes[p + 1..q] == bytes[p..q][1..];
    assert InRange(code[k], |code|) && OperandFits(code[k]);
    OffMonotone(code, k + 1, |code|);
    if code[k].OpJmp? || code[k].OpJz? { OffMonotone(code, code[k].target, |code|); }
    if OperandBytes(code[k]) == 0 {
      FetchBare(bytes, p, code[k]);
    } else {
      FetchOperand(bytes, p, code[k], d);
    }
  }

  lemma FetchBare(bytes: seq<Byte>, p: nat, i: Instr)
    requires p < |bytes| && bytes[p] == OpCode(i) && OperandBytes(i) == 0
    ensures Fetch(bytes, p) == Plain(i, p + 1)
  {
  }

  lemma FetchOperand(bytes: seq<Byte>, p: nat, i: Instr, d: int)
    requires OperandBytes(i) > 0 && p + Size(i) <= |bytes|
    requires OperandFits(i) && -TWO_31 <= d < TWO_31
    requires bytes[p] == OpCode(i)
    requires bytes[p + 1..p + Size(i)] ==
             match i
             case OpPushC(c) => PutU32(c)
             case OpPushI(v) => PutI32(v)
             case OpLoadL(s) => PutU16(s)
             case OpStoreL(s) => PutU16(s)
             case OpCall(f, argc) => PutU16(f) + [argc % 256]
             case _ => PutI32(d)
    ensures Fetch(bytes, p) ==
            match i
            case OpJmp(_) => Jump(d, p + 5)
            case OpJz(_) => JumpIfZero(d, p + 5)
            case _ => Plain(i, p + Size(i))
  {
    Widths();
    match i {
      case OpPushC(c) => FieldOfPut(bytes, p + 1, 4, |bytes|, c);
      case OpPushI(v) =>
        SignedOfWrapped(v);
        FieldOfPut(bytes, p + 1, 4, |bytes|, v % TWO_32);
      case OpLoadL(s) => FieldOfPut(bytes, p + 1, 2, |bytes|, s);
      case OpStoreL(s) => FieldOfPut(bytes, p + 1, 2, |bytes|, s);
      case OpCall(f, argc) =>
        var e := bytes[p + 1..p + 4];
        assert e[..2] == PutU16(f);
        assert bytes[p + 1..p + 3] == e[..2];
        assert bytes[p + 3] == e[2];
        FieldOfPut(bytes, p + 1, 2, |bytes|, f);
      case OpJmp(_) =>
        SignedOfWrapped(d);
        FieldOfPut(bytes, p + 1, 4, |bytes|, d % TWO_32);
      case OpJz(_) =>
        SignedOfWrapped(d);
        FieldOfPut(bytes, p + 1, 4, |bytes|, d % TWO_32);
    }
  }

  /** The byte machine's state for a state of the list machine: the counter becomes an offset. */
  ghost function AtOffset(image: Image, c: Cfg): Cfg
    requires c.fn < |image.funcs| && c.pc <= |image.funcs[c.fn].code|
  {
    c.(pc := Off(image.funcs[c.fn].code, c.pc))
  }

  ghost predicate InCode(image: Image, c: Cfg) {
    c.fn < |image.funcs| && c.pc <= |image.funcs[c.fn].code|
  }

  /** Corresponding effects: the same, with the counters of the next state translated. */
  ghost predicate SameAct(image: Image, a: Act, b: Act) {
    match a
    case Go(c) => InCode(image, c) && b == Go(AtOffset(image, c))
    case Enter(f, args, c) => InCode(image, c) && b == Enter(f, args, AtOffset(image, c))
    case _ => b == a
  }

  /** Instructions other than jumps only carry the counter along. */
  lemma PerformIgnoresCounter(fp: Float, consts: seq<Const>, i: Instr, c: Cfg, p: nat)
    requires !i.OpJmp? && !i.OpJz?
    ensures Perform(fp, consts, i, c.(pc := p)) ==
            match Perform(fp, consts, i, c)
            case Go(c1) => Go(c1.(pc := p))
            case Enter(f, args, c1) => Enter(f, args, c1.(pc := p))
            case a => a
    ensures match Perform(fp, consts, i, c)
            case Go(c1) => c1.fn == c.fn && c1.pc == c.pc
            case Enter(_, _, c1) => c1.fn == c.fn && c1.pc == c.pc
            case _ => true
  {
  }

  /** One instruction on bytes is one instruction on the list; the cursor stays at instruction
      boundaries, and a jump lands exactly on the offset of its target. */
  lemma {:induction false} StepSimulates(fp: Float, image: Image, prog: Prog, c: Cfg)
    requires Encodes(image, prog) && InCode(image, c)
    ensures SameAct(image, Step(fp, image, c), StepB(fp, prog, AtOffset(image, c)))
  {
    hide Machine.Perform, Fetch, EncodeCode;
    var code := image.funcs[c.fn].code;
    assert Encodable(code);
    if c.pc < |code| {
      FetchDecodes(code, c.pc);
      if code[c.pc].OpJmp? || code[c.pc].OpJz? {
        StepJump(fp, image, prog, c);
      } else {
        StepPlain(fp, image, prog, c);
      }
    } else {
      assert |EncodeCode(code)| == Off(code, |code|) by { EncodedLength(code); }
    }
  }

  lemma EncodedLength(code: seq<Instr>)
    requires Closed(code)
    ensures |EncodeCode(code)| == Off(code, |code|)
  {
  }

  ghost predicate FetchesRight(image: Image, c: Cfg) {
    && InCode(image, c) && c.pc < |image.funcs[c.fn].code|
    && var code := image.funcs[c.fn].code;
       && Encodable(code)
       && Off(code, c.pc) < |EncodeCode(code)|
       && Fetch(EncodeCode(code), Off(code, c.pc)) == FetchedOf(code, c.pc)
  }

  lemma StepJump(fp: Float, image: Image, prog: Prog, c: Cfg)
    requires Encodes(image, prog) && FetchesRight(image, c)
    requires var i := image.funcs[c.fn].code[c.pc]; i.OpJmp? || i.OpJz?
    ensures SameAct(image, Step(fp, image, c), StepB(fp, prog, AtOffset(image, c)))
  {
    hide Fetch, EncodeCode;
    var code := image.funcs[c.fn].code;
    assert InRange(code[c.pc], |code|);
    OffMonotone(code, 0, code[c.pc].target);
  }

  lemma StepPlain(fp: Float, image: Image, prog: Prog, c: Cfg)
    requires Encodes(image, prog) && FetchesRight(image, c)
    requires var i := image.funcs[c.fn].code[c.pc]; !i.OpJmp? && !i.OpJz?
    ensures SameAct(image, Step(fp, image, c), StepB(fp, prog, AtOffset(image, c)))
  {
    hide Fetch, EncodeCode, Machine.Perform;
    var code := image.funcs[c.fn].code;
    PerformIgnoresCounter(fp, image.consts, code[c.pc], c.(pc := c.pc + 1), Off(code, c.pc + 1));
  }

  /** Executing the bytes is executing the list, for any number of steps. */
  lemma {:induction false} BytesRunLikeList(fp: Float, image: Image, prog: Prog, k: nat, c: Cfg)
    requires Encodes(image, prog) && InCode(image, c)
    ensures Exec(VmB(fp, prog), k, AtOffset(image, c)) == Exec(VmOf(fp, image), k, c)
    decreases k
  {
    hide Step, StepB, Encodes;
    if k > 0 {
      StepSimulates(fp, image, prog, c);
      match Step(fp, image, c)
      case Go(c1) => BytesRunLikeList(fp, image, prog, k - 1, c1);
      case Enter(f, args, c1) =>
        SameStart(fp, image, prog, f, args, c1.s);
        if f < |image.funcs| {
          BytesRunLikeList(fp, image, prog, k - 1, Start(image, f, args, c1.s).value);
        }
        var r := Run(VmOf(fp, image), k - 1, f, args, c1.s);
        if r.Ok? { BytesRunLikeList(fp, image, prog, r.val.left, Resume(c1, r.val.v, r.store)); }
      case _ =>
    }
  }

  lemma SameStart(fp: Float, image: Image, prog: Prog, f: nat, args: seq<Val>, s: Store)
    requires Encodes(image, prog)
    ensures StartB(prog, f, args, s) == Start(image, f, args, s)
    ensures f < |image.funcs| ==>
              InCode(image, Start(image, f, args, s).value)
              && AtOffset(image, Start(image, f, args, s).value) == Start(image, f, args, s).value
  {
  }
}
