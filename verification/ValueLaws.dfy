/** What the primitive operations mean.  The source language and the machine share them, so that a mistake in one
    would be a mistake in both: here each is stated by what it leaves, without its definition. */
module ValueLaws {
  import opened Values
  import opened Ast
  import opened Surface

  // ----- arrays -----

  /** The address of an existing cell: an allocated array, and an index inside it. */
  ghost predicate IsCell(s: Store, ref: Val, i: int) {
    ref.VRef? && ref.r < |s.heap| && 0 <= i < |s.heap[ref.r]|
  }

  /** Reading gives the cell, and changes nothing; it fails exactly where there is no cell. */
  lemma LoadReadsTheCell(fp: Float, ref: Val, i: int, s: Store)
    ensures IsCell(s, ref, i) ==> Load(fp, ref, VInt(i), s) == Ok(s.heap[ref.r][i], s)
    ensures Load(fp, ref, VInt(i), s).Ok? ==> IsCell(s, ref, i)
    ensures !ref.VRef? ==> Load(fp, ref, VInt(i), s) == Trap(NotAnArray, s.out)
    ensures ref.VRef? && ref.r < |s.heap| && !IsCell(s, ref, i) ==>
              Load(fp, ref, VInt(i), s) == Trap(OutOfBounds, s.out)
  {
  }

  /** Writing succeeds exactly where reading does, and fails with the same error elsewhere. */
  lemma SaveSucceedsLikeLoad(fp: Float, ref: Val, idx: Val, v: Val, s: Store)
    ensures Save(fp, ref, idx, v, s).Ok? <==> Load(fp, ref, idx, s).Ok?
    ensures Load(fp, ref, idx, s).IsFailure() ==> Save(fp, ref, idx, v, s) == Load(fp, ref, idx, s).PropagateFailure()
  {
  }

  /** What was written is read back. */
  lemma LoadAfterSave(fp: Float, ref: Val, idx: Val, v: Val, s: Store)
    requires Save(fp, ref, idx, v, s).Ok?
    ensures var s1 := Save(fp, ref, idx, v, s).store; Load(fp, ref, idx, s1) == Ok(v, s1)
  {
  }

  /** Every other cell of every array is as it was, and so are the arrays' number and lengths and the output. */
  lemma SaveKeepsTheRest(fp: Float, ref: Val, i: int, v: Val, s: Store)
    requires Save(fp, ref, VInt(i), v, s).Ok?
    ensures var s1 := Save(fp, ref, VInt(i), v, s).store;
            && s1.out == s.out && |s1.heap| == |s.heap|
            && forall r :: 0 <= r < |s.heap| ==>
                 && |s1.heap[r]| == |s.heap[r]|
                 && forall j :: 0 <= j < |s.heap[r]| && (VRef(r) != ref || j != i) ==> s1.heap[r][j] == s.heap[r][j]
  {
  }

  /** The same said with reads: a cell that is not the one written reads as before. */
  lemma OtherCellsReadAsBefore(fp: Float, ref: Val, i: int, v: Val, s: Store, ref1: Val, j: int)
    requires Save(fp, ref, VInt(i), v, s).Ok? && (ref1 != ref || j != i)
    ensures var s1 := Save(fp, ref, VInt(i), v, s).store; var before := Load(fp, ref1, VInt(j), s);
            Load(fp, ref1, VInt(j), s1) == if before.Ok? then Ok(before.val, s1) else before
  {
  }

  /** A new array has a reference of its own, as many cells as asked for, all zero, and leaves the others alone. */
  lemma NewArrayIsFresh(fp: Float, n: int, s: Store)
    ensures n < 0 ==> NewArray(fp, VInt(n), s) == Trap(NegativeLength, s.out)
    ensures n >= 0 ==>
              var r := NewArray(fp, VInt(n), s);
              && r.Ok? && r.val.VRef? && (forall i :: !IsCell(s, r.val, i)) && r.val.r >= |s.heap|
              && r.store.out == s.out && |r.store.heap| == |s.heap| + 1
              && (forall i :: IsCell(r.store, r.val, i) <==> 0 <= i < n)
              && (forall i :: 0 <= i < n ==> Load(fp, r.val, VInt(i), r.store) == Ok(VInt(0), r.store))
              && forall ref, i :: IsCell(s, ref, i) ==>
                   IsCell(r.store, ref, i) && r.store.heap[ref.r][i] == s.heap[ref.r][i]
  {
  }

  // ----- numbers -----

  /** Division truncates: quotient and remainder make up the dividend, and the remainder is smaller than the
      divisor and has the dividend's sign. */
  lemma QuotientTruncates(a: int, b: int)
    requires b != 0
    ensures var r := a - Quotient(a, b) * b;
            && -(if b < 0 then -b else b) < r < (if b < 0 then -b else b)
            && (a >= 0 ==> r >= 0) && (a <= 0 ==> r <= 0)
  {
    var m := if a >= 0 then a else -a;
    assert m == (m / b) * b + m % b;
  }

  /** Comparisons follow the sign of the difference. */
  lemma CompareOrders(a: int, b: int)
    ensures Compare(Lt, a, b) <==> b - a > 0
    ensures Compare(Gt, a, b) <==> a - b > 0
    ensures Compare(Le, a, b) <==> Compare(Lt, a, b) || Compare(Eq, a, b)
    ensures Compare(Ge, a, b) <==> Compare(Gt, a, b) || Compare(Eq, a, b)
    ensures Compare(Eq, a, b) <==> !Compare(Lt, a, b) && !Compare(Gt, a, b)
    ensures Compare(Ne, a, b) <==> !Compare(Eq, a, b)
  {
  }

  /** Addition counts up, subtraction undoes it, and multiplication repeats it. */
  lemma ArithmeticCounts(a: int, b: int)
    ensures IntArith(Add, a, 0) == a && IntArith(Add, a, b + 1) == IntArith(Add, a, b) + 1
    ensures IntArith(Sub, IntArith(Add, a, b), b) == a
    ensures IntArith(Mul, a, 0) == 0 && IntArith(Mul, a, b + 1) == IntArith(Add, IntArith(Mul, a, b), a)
    ensures b != 0 ==> IntArith(Div, IntArith(Mul, a, b), b) == a
  {
    if b != 0 { ExactQuotient(a, b); }
  }

  lemma ExactQuotient(a: int, b: int)
    requires b != 0
    ensures Quotient(a * b, b) == a
  {
    QuotientTruncates(a * b, b);
    var d := a - Quotient(a * b, b);
    assert a * b - Quotient(a * b, b) * b == d * b;
    FarMultiple(d, b);
  }

  lemma FarMultiple(d: int, b: int)
    requires b != 0
    ensures d != 0 ==> d * b >= (if b < 0 then -b else b) || d * b <= -(if b < 0 then -b else b)
  {
    if d >= 1 {
      assert if b > 0 then d * b >= b else d * b <= b;
    } else if d <= -1 {
      assert if b > 0 then d * b <= -b else d * b >= -b;
    }
  }

  /** Two integers are computed with as integers.  A comparison gives 1 or 0, and only division by 0 fails. */
  lemma IntegerOperations(fp: Float, op: Op, a: int, b: int, s: Store)
    ensures op in {Lt, Gt, Le, Ge, Eq, Ne} ==>
              DoBinop(fp, op, VInt(a), VInt(b), s) == Ok(VInt(if Compare(op, a, b) then 1 else 0), s)
    ensures op in {Add, Sub, Mul} ==> DoBinop(fp, op, VInt(a), VInt(b), s) == Ok(VInt(IntArith(op, a, b)), s)
    ensures op.Div? && b != 0 ==> DoBinop(fp, op, VInt(a), VInt(b), s) == Ok(VInt(Quotient(a, b)), s)
    ensures op.Div? && b == 0 ==> DoBinop(fp, op, VInt(a), VInt(b), s) == Trap(DivisionByZero, s.out)
  {
  }

  /** One double makes it an operation on doubles, the host's, on the two values in this order; it never fails. */
  lemma DoubleOperations(fp: Float, op: Op, a: Bits, b: Bits, i: int, s: Store)
    ensures op in {Lt, Gt, Le, Ge, Eq, Ne} ==>
              && DoBinop(fp, op, VDbl(a), VDbl(b), s) == Ok(VInt(if fp.rel(op, a, b) then 1 else 0), s)
              && DoBinop(fp, op, VInt(i), VDbl(b), s) == Ok(VInt(if fp.rel(op, fp.ofInt(i), b) then 1 else 0), s)
              && DoBinop(fp, op, VDbl(a), VInt(i), s) == Ok(VInt(if fp.rel(op, a, fp.ofInt(i)) then 1 else 0), s)
    ensures op in {Add, Sub, Mul, Div} ==>
              && DoBinop(fp, op, VDbl(a), VDbl(b), s) == Ok(VDbl(fp.arith(op, a, b)), s)
              && DoBinop(fp, op, VInt(i), VDbl(b), s) == Ok(VDbl(fp.arith(op, fp.ofInt(i), b)), s)
              && DoBinop(fp, op, VDbl(a), VInt(i), s) == Ok(VDbl(fp.arith(op, a, fp.ofInt(i))), s)
  {
  }

  /** Tagged values are negated, converted, tested and shown as what they are. */
  lemma TaggedValues(fp: Float, i: int, d: Bits)
    ensures Negate(fp, VInt(i)) == VInt(0 - i) && Negate(fp, VDbl(d)) == VDbl(fp.neg(d))
    ensures IntToDouble(fp, VInt(i)) == VDbl(fp.ofInt(i)) && DoubleToInt(fp, VDbl(d)) == VInt(fp.toInt(d))
    ensures AsInt(fp, VInt(i)) == i && AsInt(fp, VDbl(d)) == fp.toInt(d)
    ensures Show(fp, VInt(i)) == OutInt(i) && Show(fp, VDbl(d)) == OutDouble(d)
  {
  }

  /** A conversion reads its member of the union whatever was written: the bits of a double as a two's complement
      integer, those of an integer as a double, and those of a reference as its address. */
  lemma UnionReads(fp: Float, i: int, d: Bits, ref: nat)
    ensures IntToDouble(fp, VDbl(d)) == VDbl(fp.ofInt(if d < TWO_63 then d else d - TWO_64))
    ensures DoubleToInt(fp, VInt(i)) == VInt(fp.toInt(i % TWO_64))
    ensures IntToDouble(fp, VRef(ref)) == VDbl(fp.ofInt(fp.addr(ref)))
    ensures DoubleToInt(fp, VRef(ref)) == VInt(fp.toInt(fp.addr(ref) % TWO_64))
    ensures Negate(fp, VRef(ref)) == VDbl(fp.neg(fp.addr(ref) % TWO_64))
    ensures AsInt(fp, VRef(ref)) == fp.toInt(fp.addr(ref) % TWO_64)
    ensures Show(fp, VRef(ref)) == OutDouble(fp.addr(ref) % TWO_64)
  {
  }

  /** One operand of type double makes an operation one on doubles; two integers stay integers.  A value already of
      the type asked for is left alone, and the two scalar types are converted into each other. */
  lemma CommonType(fp: Float, i: int, d: Bits, ref: nat)
    ensures Common(TInt, TInt) == TInt
    ensures Common(TInt, TDouble) == TDouble && Common(TDouble, TInt) == TDouble && Common(TDouble, TDouble) == TDouble
    ensures Convert(fp, Cell(TInt, VInt(i)), TDouble) == VDbl(fp.ofInt(i))
    ensures Convert(fp, Cell(TDouble, VDbl(d)), TInt) == VInt(fp.toInt(d))
    ensures Convert(fp, Cell(TInt, VInt(i)), TInt) == VInt(i) && Convert(fp, Cell(TDouble, VDbl(d)), TDouble) == VDbl(d)
    ensures forall t :: Convert(fp, Cell(TArrInt, VRef(ref)), t) == VRef(ref)
    ensures forall t :: Convert(fp, Cell(TArrDouble, VRef(ref)), t) == VRef(ref)
  {
  }

  /** A frame has its arguments first, in order, and zeroes behind them. */
  lemma FrameLayout(nlocals: nat, args: seq<Val>, k: nat)
    requires k < nlocals
    ensures |Frame(nlocals, args)| >= nlocals
    ensures Frame(nlocals, args)[k] == if k < |args| then args[k] else VInt(0)
  {
  }

  /** Types of elements and arrays. */
  lemma ElementTypes()
    ensures Elem(TArrInt) == TInt && Elem(TArrDouble) == TDouble && ArrayOf(TInt) == TArrInt
    ensures ArrayOf(TDouble) == TArrDouble && Elem(TInt) == TInt && Elem(TDouble) == TDouble
    ensures IsArray(TArrInt) && IsArray(TArrDouble) && !IsArray(TInt) && !IsArray(TDouble)
  {
  }

  /** A header records the first 32 parameters, an array by the type of its elements. */
  lemma HeaderKeeps(f: SFunc)
    ensures var sig := SigOf(f);
            && sig.name == f.name && sig.ret == f.ret && |sig.params| == (if |f.params| < 32 then |f.params| else 32)
            && forall i :: 0 <= i < |sig.params| ==>
                 sig.params[i] == if f.params[i].ty in {TInt, TArrInt} then TInt else TDouble
  {
  }

  /** The 64-bit patterns are those of two's complement. */
  lemma PatternsAreSigned(b: Bits, i: int)
    ensures -TWO_63 <= Signed(b) < TWO_63 && (Signed(b) == b || Signed(b) + TWO_64 == b)
    ensures Pattern(Signed(b)) == b && (-TWO_63 <= i < TWO_63 ==> Signed(Pattern(i)) == i)
    ensures TWO_16 == 65_536 && TWO_32 == 65_536 * 65_536 && TWO_64 == TWO_32 * TWO_32
    ensures 2 * TWO_31 == TWO_32 && 2 * TWO_63 == TWO_64
  {
  }
}
