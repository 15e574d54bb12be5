/** Zeroed cells of type double: a fresh array element, a slot never written, or the result of a function that
    falls off its end is the integer 0, and the machine picks integer or double arithmetic by tag.  One operation
    at a time; `ZeroRuns` has whole runs. */
module ZeroCells {
  import opened Values
  import opened Ast
  import opened Typing

  /** The double a double-typed value stands for. */
  function Double(v: Val): Bits
    requires HasType(v, TDouble, [])
  {
    if v.VDbl? then v.d else 0
  }

  /** What the operation would give if every double were tagged as one. */
  function PureBinop(fp: Float, op: Op, a: Bits, b: Bits, s: Store): Res<Val> {
    if IsComparison(op) then Ok(VInt(if fp.rel(op, a, b) then 1 else 0), s) else Ok(VDbl(fp.arith(op, a, b)), s)
  }

  /** Arithmetic on the double 0: what IEEE 754 says of +0 and +0. */
  predicate ZeroArithmetic(fp: Float) {
    && fp.ofInt(0) == 0
    && fp.arith(Add, 0, 0) == 0 && fp.arith(Sub, 0, 0) == 0 && fp.arith(Mul, 0, 0) == 0
    && fp.rel(Le, 0, 0) && fp.rel(Ge, 0, 0) && fp.rel(Eq, 0, 0)
    && !fp.rel(Lt, 0, 0) && !fp.rel(Gt, 0, 0) && !fp.rel(Ne, 0, 0)
  }

  /** Two outcomes a program cannot tell apart: same double, or same integer where one is expected. */
  predicate SameOutcome(op: Op, r: Res<Val>, q: Res<Val>)
    requires r.Ok? && !IsComparison(op) ==> HasType(r.val, TDouble, [])
    requires q.Ok? && !IsComparison(op) ==> HasType(q.val, TDouble, [])
  {
    if r.Ok? && q.Ok? && !IsComparison(op) then Double(r.val) == Double(q.val) && r.store == q.store else r == q
  }

  /** Choosing binary arithmetic by tag is choosing it by type, except when a zeroed cell is divided by a zeroed
      cell: that stops the program with a division by zero, where 0.0 / 0.0 would have had a value. */
  lemma TagArithmeticIsTypeArithmetic(fp: Float, op: Op, a: Val, b: Val, s: Store)
    requires ZeroArithmetic(fp) && HasType(a, TDouble, []) && HasType(b, TDouble, [])
    ensures var r := DoBinop(fp, op, a, b, s);
            && (r.Ok? && !IsComparison(op) ==> HasType(r.val, TDouble, []))
            && (SameOutcome(op, r, PureBinop(fp, op, Double(a), Double(b), s)) <==>
                !(op.Div? && a == ZERO && b == ZERO))
  {
    if op.Div? && a == ZERO && b == ZERO {
      assert DoBinop(fp, op, a, b, s) == Trap(DivisionByZero, s.out);
    }
  }

  /** The same for unary minus: negating by tag is negating by type, except for a zeroed cell, whose negative is
      again the integer 0 where the double +0 has the negative -0. */
  lemma TagNegationIsTypeNegation(fp: Float, v: Val)
    requires fp.neg(0) != 0 && HasType(v, TDouble, [])
    ensures HasType(Negate(fp, v), TDouble, [])
    ensures Double(Negate(fp, v)) == fp.neg(Double(v)) <==> v != ZERO
  {
    if v == ZERO { assert Negate(fp, v) == ZERO; }
  }
}
