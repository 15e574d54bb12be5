/** Run-time values of the virtual machine, and the primitive operations on them that both the
    source-level evaluator and the machine use. */
module Values {

  const TWO_16: int := 0x1_0000
  const TWO_31: int := 0x8000_0000
  const TWO_32: int := 0x1_0000_0000
  const TWO_63: int := 0x8000_0000_0000_0000
  const TWO_64: int := 0x1_0000_0000_0000_0000

  /** The 64 bits of a C `double`. */
  type Bits = n: nat | n < TWO_64

  datatype Option<+T> = None | Some(value: T)

  datatype Op = Add | Sub | Mul | Div | Lt | Gt | Le | Ge | Eq | Ne

  predicate IsComparison(op: Op) {
    op.Lt? || op.Gt? || op.Le? || op.Ge? || op.Eq? || op.Ne?
  }

  /** The machine's tagged union.  A reference is an index into the store's list of arrays. */
  datatype Val = VInt(i: int) | VDbl(d: Bits) | VRef(r: nat)

  /** What a calloc'd cell holds: tag 0 (integer) and payload 0. */
  const ZERO: Val := VInt(0)

  /** The host's floating point and the addresses its allocator hands out.  Everything proved holds
      for every choice of these. */
  datatype Float = Float(
    arith: (Op, Bits, Bits) -> Bits,
    rel: (Op, Bits, Bits) -> bool,
    neg: Bits -> Bits,
    ofInt: int -> Bits,
    toInt: Bits -> int,
    addr: nat -> int)

  /** Bit patterns a double literal can have: non-negative and not a NaN. */
  const MAX_LITERAL: Bits := 0x7FF0_0000_0000_0000

  predicate IsLiteral(d: Bits) { d <= MAX_LITERAL }

  /** IEEE 754 comparison identifies two literals only when they are the same double. */
  ghost predicate EqIsIdentityOnLiterals(fp: Float) {
    forall a: Bits, b: Bits :: IsLiteral(a) && IsLiteral(b) ==> (fp.rel(Eq, a, b) <==> a == b)
  }

  /** Two's complement reading of a 64-bit pattern. */
  function Signed(b: Bits): int { if b < TWO_63 then b else b - TWO_64 }

  function Pattern(i: int): Bits { i % TWO_64 }

  /** Reading the union's `double` member whatever the tag says. */
  function RawDouble(fp: Float, v: Val): Bits {
    match v
    case VInt(i) => Pattern(i)
    case VDbl(d) => d
    case VRef(r) => Pattern(fp.addr(r))
  }

  /** Reading the union's `long` member whatever the tag says. */
  function RawInt(fp: Float, v: Val): int {
    match v
    case VInt(i) => i
    case VDbl(d) => Signed(d)
    case VRef(r) => fp.addr(r)
  }

  function AsDouble(fp: Float, v: Val): Bits {
    if v.VInt? then fp.ofInt(v.i) else RawDouble(fp, v)
  }

  function AsInt(fp: Float, v: Val): int {
    if v.VInt? then v.i else fp.toInt(RawDouble(fp, v))
  }

  /** C's `/` on integers: the quotient is truncated toward zero. */
  function Quotient(a: int, b: int): int
    requires b != 0
  {
    if a >= 0 then a / b else -((-a) / b)
  }

  function Compare(op: Op, a: int, b: int): bool {
    match op
    case Lt => a < b
    case Gt => a > b
    case Le => a <= b
    case Ge => a >= b
    case Eq => a == b
    case _ => a != b
  }

  function IntArith(op: Op, a: int, b: int): int
    requires op.Div? ==> b != 0
  {
    match op
    case Add => a + b
    case Sub => a - b
    case Mul => a * b
    case Div => Quotient(a, b)
    case _ => 0
  }

  datatype Msg =
    | DivisionByZero | NegativeLength | NotAnArray | OutOfBounds
    | StackOverflow | StackUnderflow | Truncated | BadOpcode | NoMain | BadMagic

  datatype Out = OutInt(i: int) | OutDouble(d: Bits)

  /** Everything that survives a function call: the arrays allocated so far and the output. */
  datatype Store = Store(heap: seq<seq<Val>>, out: seq<Out>)

  /** Outcome of a computation.  `Trap` is the machine's `die`; `Wrong` is undefined behaviour of the C
      program (an access outside an array it owns); `Timeout` means the fuel ran out. */
  datatype Res<+T> = Ok(val: T, store: Store) | Trap(msg: Msg, out: seq<Out>) | Wrong | Timeout {
    predicate IsFailure() { !Ok? }

    function PropagateFailure<U>(): (r: Res<U>)
      requires IsFailure()
      ensures !r.Ok?
    {
      match this
      case Trap(m, o) => Trap(m, o)
      case Wrong => Wrong
      case Timeout => Timeout
    }

    function Extract(): (T, Store)
      requires Ok?
    {
      (val, store)
    }
  }

  function DoBinop(fp: Float, op: Op, a: Val, b: Val, s: Store): Res<Val> {
    var bothInt := a.VInt? && b.VInt?;
    if IsComparison(op) then
      var holds := if bothInt then Compare(op, a.i, b.i) else fp.rel(op, AsDouble(fp, a), AsDouble(fp, b));
      Ok(VInt(if holds then 1 else 0), s)
    else if bothInt then
      if op.Div? && b.i == 0 then Trap(DivisionByZero, s.out) else Ok(VInt(IntArith(op, a.i, b.i)), s)
    else
      Ok(VDbl(fp.arith(op, AsDouble(fp, a), AsDouble(fp, b))), s)
  }

  function Negate(fp: Float, v: Val): Val {
    if v.VInt? then VInt(-v.i) else VDbl(fp.neg(RawDouble(fp, v)))
  }

  function IntToDouble(fp: Float, v: Val): Val { VDbl(fp.ofInt(RawInt(fp, v))) }

  function DoubleToInt(fp: Float, v: Val): Val { VInt(fp.toInt(RawDouble(fp, v))) }

  function NewArray(fp: Float, len: Val, s: Store): (r: Res<Val>)
    ensures !r.Timeout? && !r.Wrong?
  {
    var n := AsInt(fp, len);
    if n < 0 then Trap(NegativeLength, s.out)
    else Ok(VRef(|s.heap|), s.(heap := s.heap + [seq(n, _ => ZERO)]))
  }

  function Load(fp: Float, ref: Val, idx: Val, s: Store): Res<Val> {
    if !ref.VRef? then Trap(NotAnArray, s.out)
    else if ref.r >= |s.heap| then Wrong
    else
      var i := AsInt(fp, idx);
      if i < 0 || i >= |s.heap[ref.r]| then Trap(OutOfBounds, s.out) else Ok(s.heap[ref.r][i], s)
  }

  function Save(fp: Float, ref: Val, idx: Val, v: Val, s: Store): Res<()> {
    if !ref.VRef? then Trap(NotAnArray, s.out)
    else if ref.r >= |s.heap| then Wrong
    else
      var i := AsInt(fp, idx);
      if i < 0 || i >= |s.heap[ref.r]| then Trap(OutOfBounds, s.out)
      else Ok((), s.(heap := s.heap[ref.r := s.heap[ref.r][i := v]]))
  }

  function Show(fp: Float, v: Val): Out {
    if v.VInt? then OutInt(v.i) else OutDouble(RawDouble(fp, v))
  }

  function Max(a: nat, b: nat): nat { if a < b then b else a }

  /** A new frame: zeroed slots (at least one is allocated), arguments copied into the first ones. */
  function Frame(nlocals: nat, args: seq<Val>): (l: seq<Val>)
    ensures |l| == Max(nlocals, 1)
  {
    seq(Max(nlocals, 1), i requires 0 <= i => if i < |args| && i < nlocals then args[i] else ZERO)
  }

  /** `cargs` in the machine's CALL has this many cells. */
  const MAX_ARGS: nat := 64
}
