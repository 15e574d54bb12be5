/** What zeroed doubles do to source programs: the exact condition under which a program's run is the typed one,
    and two accepted programs whose runs are not. */
module ZeroPrograms {
  import opened Values
  import opened Ast
  import opened Surface
  import opened Elab
  import opened Driver
  import opened Machine
  import opened Compile
  import opened Typing
  import opened TypeSafety
  import opened StackTypes
  import opened ElabTypes
  import opened ZeroCells
  import opened TypedMachine
  import opened ZeroRuns

  const NOTHING: Store := Store([], [])

  ghost function TypingFor(fp: Float, p: SProgram, prog: Program): Typed
    requires |p| == |prog|
  {
    TypingOf(fp, prog, FTypesOf(p, prog))
  }

  /** For every accepted program that does not mix arrays and scalars, and every function called without
      arguments: the run by tag stays in step with the run by type exactly as long as no zeroed double is negated
      or divided by another. */
  lemma RunIsTypedIff(fp: Float, p: SProgram, prog: Program, f: nat, k: nat)
    requires ElabProgram(p) == Done(prog) && Unmixed(p, prog) && FitsStack(prog) && Ieee(fp) && f < |prog|
    ensures var t := TypingFor(fp, p, prog);
            var c, d := Start(t.image, f, [], NOTHING).value, TypedStart(t, f, [], NOTHING).value;
            && Checked(true, t)
            && (InStep(fp, t, k, c, d) <==> Calm(fp, t, k, c))
            && (Calm(fp, t, k, c) ==>
                  match (Exec(VmOf(fp, t.image), k, c), Exec(TypedVm(fp, t), k, d))
                  case (Ok(x, s), Ok(y, z)) => x.left == y.left && Tagged(x.v, y.v, p[f].ret) && SameTexts(s.out, z.out)
                  case (Trap(m, o), Trap(n, q)) => m == n && SameTexts(o, q)
                  case (Timeout, Timeout) => true
                  case _ => false)
  {
    hide Unmixed, OkProgram, InStep, Calm, Driver.Exec, Ieee, Checked, Together;
    ElaboratedIsOk(p, prog);
    var t := TypingFor(fp, p, prog);
    GeneratedIsChecked(fp, true, prog, FTypesOf(p, prog));
    StartTogether(t, f, [], [], NOTHING, NOTHING, []);
    var _ := InStepIffCalm(fp, t, k, Start(t.image, f, [], NOTHING).value, TypedStart(t, f, [], NOTHING).value, []);
  }

  // ----- running concrete code -----

  /** One instruction of function 0, by tag. */
  lemma TagStep(fp: Float, t: Typed, k: nat, i: Instr, c: Cfg, c1: Cfg)
    requires c.fn == 0 < |t.image.funcs| && c.pc < |t.image.funcs[0].code| && t.image.funcs[0].code[c.pc] == i
    requires Perform(fp, t.image.consts, i, c.(pc := c.pc + 1)) == Go(c1)
    ensures Exec(VmOf(fp, t.image), k + 1, c) == Exec(VmOf(fp, t.image), k, c1)
  {
    hide Perform;
  }

  /** One instruction of function 0, by type. */
  lemma TypeStep(fp: Float, t: Typed, k: nat, i: Instr, c: Cfg, c1: Cfg)
    requires c.fn == 0 < |t.image.funcs| && c.pc < |t.image.funcs[0].code| && t.image.funcs[0].code[c.pc] == i
    requires 0 < |t.maps| && c.pc + 1 < |t.maps[0]|
    requires TypedPerform(fp, t.image.consts, i, t.maps[0][c.pc], t.maps[0][c.pc + 1], c.(pc := c.pc + 1)) == Go(c1)
    ensures Exec(TypedVm(fp, t), k + 1, c) == Exec(TypedVm(fp, t), k, c1)
  {
    hide TypedPerform;
  }

  /** `double a[1];` and `a[0]` on the stack. */
  const PREFIX: seq<Instr> := [OpPushI(1), OpNewArr, OpStoreL(0), OpLoadL(0), OpPushI(0), OpALoad]

  const ARR: Type := TArrDouble
  const PREFIX_MAP: seq<seq<Type>> := [[], [TInt], [ARR], [], [ARR], [ARR, TInt], [TDouble]]

  /** A module of one function that begins so. */
  predicate Begins(t: Typed) {
    && |t.image.funcs| == 1 == |t.maps| && |t.fts| == 1 && t.fts[0].slots == [ARR] && t.image.funcs[0].nlocals == 1
    && PREFIX <= t.image.funcs[0].code && PREFIX_MAP <= t.maps[0] && |t.maps[0]| == |t.image.funcs[0].code|
  }

  /** The state after the declaration, where the array holds `cell`. */
  function Declared(pc: nat, stack: seq<Val>, cell: Val): Cfg {
    Cfg(0, pc, stack, [VRef(0)], Store([[cell]], []))
  }

  lemma Beginning(t: Typed)
    requires Begins(t)
    ensures |t.image.funcs| == 1 == |t.maps| && |t.image.funcs[0].code| >= 6 && |t.maps[0]| >= 7
    ensures var code, map0 := t.image.funcs[0].code, t.maps[0];
            && code[0] == OpPushI(1) && code[1] == OpNewArr && code[2] == OpStoreL(0)
            && code[3] == OpLoadL(0) && code[4] == OpPushI(0) && code[5] == OpALoad
            && map0[0] == [] && map0[1] == [TInt] && map0[2] == [ARR] && map0[3] == [] && map0[4] == [ARR]
            && map0[5] == [ARR, TInt] && map0[6] == [TDouble]
    ensures Start(t.image, 0, [], NOTHING) == Some(Cfg(0, 0, [], [ZERO], NOTHING))
    ensures TypedStart(t, 0, [], NOTHING) == Some(Cfg(0, 0, [], [ZERO], NOTHING))
  {
    var code, map0 := t.image.funcs[0].code, t.maps[0];
    assert forall i :: 0 <= i < 6 ==> code[i] == PREFIX[i];
    assert forall i :: 0 <= i < 7 ==> map0[i] == PREFIX_MAP[i];
    assert Frame(1, []) == [ZERO] && TypedFrame([ARR], 1, []) == [ZERO];
  }

  lemma DeclareByTag(fp: Float, t: Typed, k: nat)
    requires Begins(t)
    ensures Exec(VmOf(fp, t.image), k + 3, Start(t.image, 0, [], NOTHING).value)
            == Exec(VmOf(fp, t.image), k, Declared(3, [], ZERO))
  {
    hide Driver.Exec, VmOf, Perform, Begins, Start, Frame;
    Beginning(t);
    PushEffect(fp, t.image.consts);
    NewByTag(fp, t.image.consts);
    StoreEffect(fp, t.image.consts, ZERO);
    var s := Store([[ZERO]], []);
    TagStep(fp, t, k + 2, OpPushI(1), Cfg(0, 0, [], [ZERO], NOTHING), Cfg(0, 1, [VInt(1)], [ZERO], NOTHING));
    TagStep(fp, t, k + 1, OpNewArr, Cfg(0, 1, [VInt(1)], [ZERO], NOTHING), Cfg(0, 2, [VRef(0)], [ZERO], s));
    TagStep(fp, t, k, OpStoreL(0), Cfg(0, 2, [VRef(0)], [ZERO], s), Declared(3, [], ZERO));
  }

  lemma OneCell(fp: Float)
    ensures NewArray(fp, VInt(1), NOTHING) == Ok(VRef(0), Store([[ZERO]], []))
    ensures NewTypedArray(fp, VInt(1), TDouble, NOTHING) == Ok(VRef(0), Store([[VDbl(0)]], []))
  {
    assert seq(1, _ => ZERO) == [ZERO];
    assert seq(1, _ => Zero(TDouble)) == [VDbl(0)];
  }

  /** Pushing the length, and storing the reference: the same by tag and by type. */
  lemma PushEffect(fp: Float, consts: seq<Const>)
    ensures var c := Cfg(0, 1, [], [ZERO], NOTHING);
            && Perform(fp, consts, OpPushI(1), c) == Go(c.(stack := [VInt(1)]))
            && TypedPerform(fp, consts, OpPushI(1), [], [TInt], c) == Go(c.(stack := [VInt(1)]))
  {
    var none: seq<Val> := [];
    assert none + [VInt(1)] == [VInt(1)];
  }

  lemma StoreEffect(fp: Float, consts: seq<Const>, cell: Val)
    ensures var c := Cfg(0, 3, [VRef(0)], [ZERO], Store([[cell]], []));
            && Perform(fp, consts, OpStoreL(0), c) == Go(Declared(3, [], cell))
            && TypedPerform(fp, consts, OpStoreL(0), [ARR], [], c) == Go(Declared(3, [], cell))
  {
    var st: seq<Val> := [VRef(0)];
    assert Drop(st, 1) == [] && [ZERO][0 := VRef(0)] == [VRef(0)];
  }

  /** Allocating by tag. */
  lemma NewByTag(fp: Float, consts: seq<Const>)
    ensures Perform(fp, consts, OpNewArr, Cfg(0, 2, [VInt(1)], [ZERO], NOTHING))
            == Go(Cfg(0, 2, [VRef(0)], [ZERO], Store([[ZERO]], [])))
  {
    hide NewArray;
    OneCell(fp);
    var st: seq<Val> := [VInt(1)];
    assert Drop(st, 1) == [];
  }

  /** Allocating by type. */
  lemma NewByType(fp: Float, consts: seq<Const>)
    ensures TypedPerform(fp, consts, OpNewArr, [TInt], [ARR], Cfg(0, 2, [VInt(1)], [ZERO], NOTHING))
            == Go(Cfg(0, 2, [VRef(0)], [ZERO], Store([[VDbl(0)]], [])))
  {
    hide NewTypedArray, Perform;
    OneCell(fp);
    var st: seq<Val> := [VInt(1)];
    assert Drop(st, 1) == [];
  }

  lemma DeclareByType(fp: Float, t: Typed, k: nat)
    requires Begins(t)
    ensures Exec(TypedVm(fp, t), k + 3, TypedStart(t, 0, [], NOTHING).value)
            == Exec(TypedVm(fp, t), k, Declared(3, [], VDbl(0)))
  {
    hide Driver.Exec, TypedVm, TypedPerform, Begins, TypedStart, TypedFrame;
    Beginning(t);
    PushEffect(fp, t.image.consts);
    NewByType(fp, t.image.consts);
    StoreEffect(fp, t.image.consts, VDbl(0));
    var s := Store([[VDbl(0)]], []);
    TypeStep(fp, t, k + 2, OpPushI(1), Cfg(0, 0, [], [ZERO], NOTHING), Cfg(0, 1, [VInt(1)], [ZERO], NOTHING));
    TypeStep(fp, t, k + 1, OpNewArr, Cfg(0, 1, [VInt(1)], [ZERO], NOTHING), Cfg(0, 2, [VRef(0)], [ZERO], s));
    TypeStep(fp, t, k, OpStoreL(0), Cfg(0, 2, [VRef(0)], [ZERO], s), Declared(3, [], VDbl(0)));
  }

  /** `a[0]`, on top of what is there. */
  lemma CellByTag(fp: Float, t: Typed, k: nat, pc: nat, st: seq<Val>)
    requires |t.image.funcs| == 1 && pc + 3 <= |t.image.funcs[0].code| && |st| < 10
    requires var code := t.image.funcs[0].code;
             code[pc] == OpLoadL(0) && code[pc + 1] == OpPushI(0) && code[pc + 2] == OpALoad
    ensures Exec(VmOf(fp, t.image), k + 3, Declared(pc, st, ZERO)) ==
            Exec(VmOf(fp, t.image), k, Declared(pc + 3, st + [ZERO], ZERO))
  {
    hide Driver.Exec, VmOf;
    var c1, c2 := Declared(pc + 1, st + [VRef(0)], ZERO), Declared(pc + 2, st + [VRef(0)] + [ZERO], ZERO);
    TagStep(fp, t, k + 2, OpLoadL(0), Declared(pc, st, ZERO), c1);
    TagStep(fp, t, k + 1, OpPushI(0), c1, c2);
    assert Drop(c2.stack, 2) == st;
    TagStep(fp, t, k, OpALoad, c2, Declared(pc + 3, st + [ZERO], ZERO));
  }

  lemma CellByType(fp: Float, t: Typed, k: nat, pc: nat, st: seq<Val>)
    requires |t.image.funcs| == 1 == |t.maps| && pc + 3 <= |t.image.funcs[0].code| && |st| < 10
    requires var code := t.image.funcs[0].code;
             code[pc] == OpLoadL(0) && code[pc + 1] == OpPushI(0) && code[pc + 2] == OpALoad
    requires pc + 3 < |t.maps[0]| && !Top(t.maps[0][pc + 2]).TDouble?
    ensures Exec(TypedVm(fp, t), k + 3, Declared(pc, st, VDbl(0))) ==
            Exec(TypedVm(fp, t), k, Declared(pc + 3, st + [VDbl(0)], VDbl(0)))
  {
    hide Driver.Exec, TypedVm;
    var c1, c2 := Declared(pc + 1, st + [VRef(0)], VDbl(0)), Declared(pc + 2, st + [VRef(0)] + [ZERO], VDbl(0));
    TypeStep(fp, t, k + 2, OpLoadL(0), Declared(pc, st, VDbl(0)), c1);
    TypeStep(fp, t, k + 1, OpPushI(0), c1, c2);
    assert Drop(c2.stack, 2) == st;
    TypeStep(fp, t, k, OpALoad, c2, Declared(pc + 3, st + [VDbl(0)], VDbl(0)));
  }

  // ----- negating a zeroed double -----

  /** `print(-a[0]); return 0;` behind the declaration. */
  const NEG_CODE: seq<Instr> := PREFIX + [OpNeg, OpPrint, OpPushI(0), OpRet, OpPushI(0), OpRet]
  const NEG_MAP: seq<seq<Type>> := PREFIX_MAP + [[TDouble], [], [TInt], [], [TInt]]

  predicate Negates(t: Typed) {
    && |t.image.funcs| == 1 == |t.maps| && |t.fts| == 1 && t.fts[0].slots == [ARR] && t.image.funcs[0].nlocals == 1
    && t.image.funcs[0].code == NEG_CODE && t.maps[0] == NEG_MAP
  }

  /** By tag the program prints the integer 0. */
  lemma NegatesByTag(fp: Float, t: Typed)
    requires Negates(t)
    ensures Exec(VmOf(fp, t.image), 10, Start(t.image, 0, [], NOTHING).value)
            == Ok(Fin(ZERO, 0), Store([[ZERO]], [OutInt(0)]))
  {
    hide Driver.Exec, VmOf, Start, Perform;
    NegatesBegins(t);
    DeclareByTag(fp, t, 7);
    CellByTag(fp, t, 4, 3, []);
    assert [] + [ZERO] == [ZERO];
    var s1 := Store([[ZERO]], [OutInt(0)]);
    var c8 := Cfg(0, 8, [], [VRef(0)], s1);
    var c9 := c8.(pc := 9, stack := [ZERO]);
    PrintEffects(fp, t.image.consts, ZERO, Store([[ZERO]], []));
    NegEffects(fp, t.image.consts);
    TagStep(fp, t, 3, OpNeg, Declared(6, [ZERO], ZERO), Declared(7, [ZERO], ZERO));
    TagStep(fp, t, 2, OpPrint, Declared(7, [ZERO], ZERO), c8);
    TagStep(fp, t, 1, OpPushI(0), c8, c9);
    Returns(fp, t, c9);
  }

  lemma NegEffects(fp: Float, consts: seq<Const>)
    ensures Perform(fp, consts, OpNeg, Declared(7, [ZERO], ZERO)) == Go(Declared(7, [ZERO], ZERO))
  {
    var v: seq<Val> := [ZERO];
    assert Drop(v, 1) == [];
  }

  lemma TypedNegEffects(fp: Float, consts: seq<Const>)
    ensures TypedPerform(fp, consts, OpNeg, [TDouble], [TDouble], Declared(7, [VDbl(0)], VDbl(0)))
            == Go(Declared(7, [VDbl(fp.neg(0))], VDbl(0)))
  {
    hide Perform;
    var w: seq<Val> := [VDbl(0)];
    assert Drop(w, 1) == [];
  }

  /** Printing the one operand, and pushing the result of `main`. */
  lemma PrintEffects(fp: Float, consts: seq<Const>, v: Val, s: Store)
    ensures forall pc: nat, l ::
              Perform(fp, consts, OpPrint, Cfg(0, pc, [v], l, s)) ==
                  Go(Cfg(0, pc, [], l, s.(out := s.out + [Show(fp, v)])))
    ensures forall pc: nat, l, z ::
              Perform(fp, consts, OpPushI(0), Cfg(0, pc, [], l, z)) == Go(Cfg(0, pc, [ZERO], l, z))
  {
    var st: seq<Val> := [v];
    assert Drop(st, 1) == [];
  }

  lemma NegatesBegins(t: Typed)
    requires Negates(t)
    ensures Begins(t)
    ensures var code := t.image.funcs[0].code;
            |code| == 12 && code[3] == OpLoadL(0) && code[4] == OpPushI(0) && code[5] == OpALoad
            && code[6] == OpNeg && code[7] == OpPrint && code[8] == OpPushI(0) && code[9] == OpRet
    ensures var map0 := t.maps[0];
            |map0| == 12 && map0[5] == [ARR, TInt] && map0[6] == [TDouble] && map0[7] == [TDouble] && map0[8] == []
            && map0[9] == [TInt] && map0[10] == []
  {
  }

  /** The last instruction run, on either machine. */
  lemma Returns(fp: Float, t: Typed, c: Cfg)
    requires c.fn == 0 < |t.image.funcs| && c.pc < |t.image.funcs[0].code| && t.image.funcs[0].code[c.pc] == OpRet
    requires c.stack == [ZERO]
    ensures Exec(VmOf(fp, t.image), 1, c) == Ok(Fin(ZERO, 0), c.s)
    ensures Exec(TypedVm(fp, t), 1, c) == Ok(Fin(ZERO, 0), c.s)
  {
  }

  /** By type it prints the negative of the double 0. */
  lemma NegatesByType(fp: Float, t: Typed)
    requires Negates(t)
    ensures Exec(TypedVm(fp, t), 10, TypedStart(t, 0, [], NOTHING).value)
            == Ok(Fin(ZERO, 0), Store([[VDbl(0)]], [OutDouble(fp.neg(0))]))
  {
    hide Driver.Exec, TypedVm, TypedStart, Perform;
    NegatesBegins(t);
    DeclareByType(fp, t, 7);
    CellByType(fp, t, 4, 3, []);
    assert [] + [VDbl(0)] == [VDbl(0)];
    var w := VDbl(fp.neg(0));
    var s1 := Store([[VDbl(0)]], [OutDouble(fp.neg(0))]);
    var d8 := Cfg(0, 8, [], [VRef(0)], s1);
    var d9 := d8.(pc := 9, stack := [ZERO]);
    PrintEffects(fp, t.image.consts, w, Store([[VDbl(0)]], []));
    TypedNegEffects(fp, t.image.consts);
    TypeStep(fp, t, 3, OpNeg, Declared(6, [VDbl(0)], VDbl(0)), Declared(7, [w], VDbl(0)));
    TypeStep(fp, t, 2, OpPrint, Declared(7, [w], VDbl(0)), d8);
    TypeStep(fp, t, 1, OpPushI(0), d8, d9);
    Returns(fp, t, d9);
  }

  // ----- dividing zeroed doubles -----

  /** `print(a[0] / a[0]); return 0;` behind the declaration. */
  const DIV_CODE: seq<Instr> :=
    PREFIX + [OpLoadL(0), OpPushI(0), OpALoad, OpBin(Div), OpPrint, OpPushI(0), OpRet, OpPushI(0), OpRet]
  const DIV_MAP: seq<seq<Type>> :=
    PREFIX_MAP + [[TDouble, ARR], [TDouble, ARR, TInt], [TDouble, TDouble], [TDouble], [], [TInt], [], [TInt]]

  predicate Divides(t: Typed) {
    && |t.image.funcs| == 1 == |t.maps| && |t.fts| == 1 && t.fts[0].slots == [ARR] && t.image.funcs[0].nlocals == 1
    && t.image.funcs[0].code == DIV_CODE && t.maps[0] == DIV_MAP
  }

  lemma DividesBegins(t: Typed)
    requires Divides(t)
    ensures Begins(t)
    ensures var code := t.image.funcs[0].code;
            |code| == 15 && code[3] == OpLoadL(0) && code[4] == OpPushI(0) && code[5] == OpALoad
            && code[6] == OpLoadL(0) && code[7] == OpPushI(0) && code[8] == OpALoad
            && code[9] == OpBin(Div) && code[10] == OpPrint && code[11] == OpPushI(0) && code[12] == OpRet
    ensures var map0 := t.maps[0];
            |map0| == 15 && map0[5] == [ARR, TInt] && map0[8] == [TDouble, ARR, TInt] && map0[9] == [TDouble, TDouble]
            && map0[10] == [TDouble] && map0[11] == [] && map0[12] == [TInt]
  {
  }

  lemma DivEffects(fp: Float, consts: seq<Const>)
    ensures Perform(fp, consts, OpBin(Div), Declared(10, [ZERO, ZERO], ZERO)) == Fault(Trap(DivisionByZero, []))
  {
  }

  lemma TypedDivEffects(fp: Float, consts: seq<Const>)
    ensures TypedPerform(fp, consts, OpBin(Div), [TDouble, TDouble], [TDouble],
            Declared(10, [VDbl(0), VDbl(0)], VDbl(0)))
            == Go(Declared(10, [VDbl(fp.arith(Div, 0, 0))], VDbl(0)))
  {
    hide Perform;
    var w: seq<Val> := [VDbl(0), VDbl(0)];
    assert Drop(w, 2) == [];
  }

  /** By tag the program stops with a division by zero. */
  lemma DividesByTag(fp: Float, t: Typed)
    requires Divides(t)
    ensures Exec(VmOf(fp, t.image), 13, Start(t.image, 0, [], NOTHING).value) == Trap(DivisionByZero, [])
  {
    hide Driver.Exec, VmOf, Start, Perform;
    DividesBegins(t);
    DeclareByTag(fp, t, 10);
    CellByTag(fp, t, 7, 3, []);
    assert [] + [ZERO] == [ZERO];
    CellByTag(fp, t, 4, 6, [ZERO]);
    assert [ZERO] + [ZERO] == [ZERO, ZERO];
    DivEffects(fp, t.image.consts);
    TagFault(fp, t, 4, OpBin(Div), Declared(9, [ZERO, ZERO], ZERO), DivisionByZero, []);
  }

  lemma TagFault(fp: Float, t: Typed, k: nat, i: Instr, c: Cfg, m: Msg, out: seq<Out>)
    requires c.fn == 0 < |t.image.funcs| && c.pc < |t.image.funcs[0].code| && t.image.funcs[0].code[c.pc] == i
    requires Perform(fp, t.image.consts, i, c.(pc := c.pc + 1)) == Fault(Trap(m, out)) && k > 0
    ensures Exec(VmOf(fp, t.image), k, c) == Trap(m, out)
  {
    hide Perform;
  }

  lemma TwoCellsByType(fp: Float, t: Typed)
    requires Divides(t)
    ensures Exec(TypedVm(fp, t), 13, TypedStart(t, 0, [], NOTHING).value)
            == Exec(TypedVm(fp, t), 4, Declared(9, [VDbl(0), VDbl(0)], VDbl(0)))
  {
    hide Driver.Exec, TypedVm, TypedStart;
    DividesBegins(t);
    DeclareByType(fp, t, 10);
    CellByType(fp, t, 7, 3, []);
    assert [] + [VDbl(0)] == [VDbl(0)];
    CellByType(fp, t, 4, 6, [VDbl(0)]);
    assert [VDbl(0)] + [VDbl(0)] == [VDbl(0), VDbl(0)];
  }

  /** By type it prints the quotient. */
  lemma DividesByType(fp: Float, t: Typed)
    requires Divides(t)
    ensures Exec(TypedVm(fp, t), 13, TypedStart(t, 0, [], NOTHING).value)
            == Ok(Fin(ZERO, 0), Store([[VDbl(0)]], [OutDouble(fp.arith(Div, 0, 0))]))
  {
    hide Driver.Exec, TypedVm, TypedStart, Perform;
    DividesBegins(t);
    TwoCellsByType(fp, t);
    var w := VDbl(fp.arith(Div, 0, 0));
    var d11 := Cfg(0, 11, [], [VRef(0)], Store([[VDbl(0)]], [OutDouble(w.d)]));
    var d12 := d11.(pc := 12, stack := [ZERO]);
    PrintEffects(fp, t.image.consts, w, Store([[VDbl(0)]], []));
    TypedDivEffects(fp, t.image.consts);
    TypeStep(fp, t, 3, OpBin(Div), Declared(9, [VDbl(0), VDbl(0)], VDbl(0)), Declared(10, [w], VDbl(0)));
    TypeStep(fp, t, 2, OpPrint, Declared(10, [w], VDbl(0)), d11);
    TypeStep(fp, t, 1, OpPushI(0), d11, d12);
    Returns(fp, t, d12);
  }

  // ----- the source programs -----

  const DECL: SStmt := SDeclArray(TDouble, "a", SInt(1))
  const CELL: SExpr := SIndex("a", SInt(0))
  const RET: SStmt := SReturn(Some(SInt(0)))

  const DECL_T: Stmt := DeclArray(TDouble, 0, IntLit(1))
  const CELL_T: Expr := Index(Var(0, ARR), IntLit(0))
  const RET_T: Stmt := Return(Some(IntLit(0)))

  /** `int main() { double a[1]; print(e); return 0; }` */
  function Source(e: SExpr): SProgram { [SFunc(TInt, "main", [], [DECL, SPrint(e), RET])] }

  function Resolved(e: Expr): Program { [Func("main", 0, 1, Block([DECL_T, Print(e), RET_T]))] }

  const BOUND: Scopes := [map[], map["a" := Binding(ARR, 0)]]

  lemma PrintAccepted(e: SExpr, q: Expr)
    requires ElabE(SigsOf(Source(e)), BOUND, e) == Done(q)
    ensures ElabProgram(Source(e)) == Done(Resolved(q))
  {
    hide ElabE;
    var p := Source(e);
    var sigs := SigsOf(p);
    var g: Scopes := [map[], map[]];
    var body := p[0].body;
    DeclAccepted(sigs);
    var show, tail, end := SPrint(e), body[1..], body[2..];
    assert body == [DECL, show, RET] && tail == [show, RET] && tail[1..] == end == [RET] && end[1..] == [];
    assert ElabS(sigs, Some(TInt), BOUND, 1, show) == Done(Piece(Print(q), BOUND, 1));
    assert ElabSeq(sigs, Some(TInt), BOUND, 1, []) == Done(Piece([], BOUND, 1));
    assert [RET_T] + [] == [RET_T];
    assert ElabSeq(sigs, Some(TInt), BOUND, 1, end) == Done(Piece([RET_T], BOUND, 1));
    assert [Print(q)] + [RET_T] == [Print(q), RET_T];
    assert ElabSeq(sigs, Some(TInt), BOUND, 1, tail) == Done(Piece([Print(q), RET_T], BOUND, 1));
    assert [DECL_T] + [Print(q), RET_T] == [DECL_T, Print(q), RET_T];
    assert ElabSeq(sigs, Some(TInt), g, 0, body) == Done(Piece([DECL_T, Print(q), RET_T], BOUND, 1));
    assert [map[]] + [map[]] == g;
    assert ElabFunc(sigs, p[0]) == Done(Resolved(q)[0]);
    assert p[1..] == [] && ElabFuncs(sigs, []) == Done([]);
    assert [Resolved(q)[0]] + [] == Resolved(q);
    assert ElabFuncs(sigs, p) == Done(Resolved(q));
  }

  lemma DeclAccepted(sigs: seq<Sig>)
    ensures ElabS(sigs, Some(TInt), [map[], map[]], 0, DECL) == Done(Piece(DECL_T, BOUND, 1))
    ensures ElabS(sigs, Some(TInt), BOUND, 1, RET) == Done(Piece(RET_T, BOUND, 1))
    ensures ElabE(sigs, BOUND, CELL) == Done(CELL_T)
  {
    var g: Scopes := [map[], map[]];
    assert Bind(g, "a", Binding(ARR, 0)) == BOUND;
  }

  // ----- their code -----

  lemma DeclGenerated(fp: Float)
    ensures GenS(fp, DECL_T, 0, []) == Gen([OpPushI(1), OpNewArr, OpStoreL(0)], [])
    ensures forall pc: nat :: GenS(fp, RET_T, pc, []) == Gen([OpPushI(0), OpRet], [])
  {
  }

  lemma PrintGenerated(fp: Float, q: Expr, code: seq<Instr>)
    requires GenE(fp, q, []) == Gen(code, [])
    ensures var prog := Resolved(q);
            && PoolBefore(fp, prog, 0) == []
            && GenFunc(fp, prog[0], []) == Gen([OpPushI(1), OpNewArr, OpStoreL(0)] + code
                                               + [OpPrint, OpPushI(0), OpRet, OpPushI(0), OpRet], [])
  {
    hide Compile.GenE, Compile.GenS;
    var prog := Resolved(q);
    var decl := [OpPushI(1), OpNewArr, OpStoreL(0)];
    DeclGenerated(fp);
    var body, tail, end := [DECL_T, Print(q), RET_T], [Print(q), RET_T], [RET_T];
    assert body[1..] == tail && tail[1..] == end && end[1..] == [];
    PrintIs(fp, q, 3, code);
    var n := 3 + |code| + 1;
    assert GenSeq(fp, [], n + 2, []) == Gen([], []);
    assert [OpPushI(0), OpRet] + [] == [OpPushI(0), OpRet];
    assert GenSeq(fp, end, n, []) == Gen([OpPushI(0), OpRet], []);
    assert GenSeq(fp, tail, 3, []) == Gen(code + [OpPrint] + [OpPushI(0), OpRet], []);
    assert GenSeq(fp, body, 0, []) == Gen(decl + (code + [OpPrint] + [OpPushI(0), OpRet]), []);
    BlockIs(fp, body);
    assert decl + (code + [OpPrint] + [OpPushI(0), OpRet]) + [OpPushI(0), OpRet]
           == decl + code + [OpPrint, OpPushI(0), OpRet, OpPushI(0), OpRet];
  }

  lemma PrintIs(fp: Float, q: Expr, pc: nat, code: seq<Instr>)
    requires GenE(fp, q, []) == Gen(code, [])
    ensures GenS(fp, Print(q), pc, []) == Gen(code + [OpPrint], [])
  {
    hide Compile.GenE;
  }

  lemma BlockIs(fp: Float, body: seq<Stmt>)
    ensures GenS(fp, Block(body), 0, []) == GenSeq(fp, body, 0, [])
  {
    hide Compile.GenSeq;
  }

  lemma DeclTyped()
    ensures TypesS(DECL_T, TInt) == [[], [TInt], [ARR]] && TypesS(RET_T, TInt) == [[], [TInt]]
  {
  }

  lemma PrintMapped(q: Expr)
    ensures MapOf(Resolved(q)[0], TInt)
            == [[], [TInt], [ARR]] + TypesE(q, []) + [[TypeOf(q)], [], [TInt], [], [TInt]]
  {
    hide TypesE;
    var body, tail, end := [DECL_T, Print(q), RET_T], [Print(q), RET_T], [RET_T];
    assert body[1..] == tail && tail[1..] == end && end[1..] == [];
    var ret: seq<seq<Type>> := [[], [TInt]];
    DeclTyped();
    assert TypesSeq([], TInt) == [];
    assert TypesSeq(end, TInt) == ret;
    assert TypesSeq(tail, TInt) == TypesE(q, []) + [[TypeOf(q)]] + ret;
    assert TypesSeq(body, TInt) == [[], [TInt], [ARR]] + (TypesE(q, []) + [[TypeOf(q)]] + ret);
  }

  /** The checked module of such a program. */
  lemma PrintTyping(fp: Float, e: SExpr, q: Expr, code: seq<Instr>)
    requires GenE(fp, q, []) == Gen(code, [])
    ensures var t := TypingFor(fp, Source(e), Resolved(q));
            && |t.image.funcs| == 1 == |t.maps| && |t.fts| == 1 && t.fts[0].slots == [ARR]
            && t.image.funcs[0].nlocals == 1
            && t.image.funcs[0].code == [OpPushI(1), OpNewArr, OpStoreL(0)] + code
                                        + [OpPrint, OpPushI(0), OpRet, OpPushI(0), OpRet]
            && t.maps[0] == [[], [TInt], [ARR]] + TypesE(q, []) + [[TypeOf(q)], [], [TInt], [], [TInt]]
  {
    hide Compile.GenE, TypesE, Compile.GenFunc, MapOf;
    PrintGenerated(fp, q, code);
    PrintMapped(q);
    SlotsOfSource(e, q);
    var t := TypingFor(fp, Source(e), Resolved(q));
    assert t.image.funcs[0] == GenRoutine(fp, Resolved(q), 0);
    assert t.maps[0] == MapOf(Resolved(q)[0], TInt);
  }

  lemma SlotsOfSource(e: SExpr, q: Expr)
    ensures FTypesOf(Source(e), Resolved(q)) == [FType([], TInt, [ARR])]
  {
    var body, tail, end := [DECL_T, Print(q), RET_T], [Print(q), RET_T], [RET_T];
    assert body[1..] == tail && tail[1..] == end && end[1..] == [];
    assert DeclTypesSeq(end) == [] && DeclTypesSeq(tail) == [] && DeclTypesSeq(body) == [ARR];
    assert DeclTypes(Block(body)) == [ARR];
    assert ParamTypes([]) == [] && ParamTypes([]) + [ARR] == [ARR];
  }

  // ----- the two programs that go wrong -----

  const NEGATION: SExpr := SNeg(CELL)
  const QUOTIENT: SExpr := SBin(Div, CELL, CELL)

  lemma NegationCompiles(fp: Float)
    ensures ElabProgram(Source(NEGATION)) == Done(Resolved(Neg(CELL_T)))
    ensures Negates(TypingFor(fp, Source(NEGATION), Resolved(Neg(CELL_T))))
  {
    hide Compile.GenE, TypesE, TypingFor;
    DeclAccepted(SigsOf(Source(NEGATION)));
    PrintAccepted(NEGATION, Neg(CELL_T));
    CellGenerated(fp);
    var code := [OpLoadL(0), OpPushI(0), OpALoad, OpNeg];
    NegShape(fp, CELL_T, code);
    PrintTyping(fp, NEGATION, Neg(CELL_T), code);
  }

  lemma NegShape(fp: Float, a: Expr, code: seq<Instr>)
    requires GenE(fp, a, []).pool == [] && code == GenE(fp, a, []).code + [OpNeg] && TypeOf(a) == TDouble
    ensures GenE(fp, Neg(a), []) == Gen(code, []) && TypesE(Neg(a), []) == TypesE(a, []) + [[TDouble]]
  {
    UnaryShape(fp, Neg(a), a, OpNeg, [], []);
    var none: seq<Type> := [];
    assert none + [TDouble] == [TDouble];
  }

  lemma CellGenerated(fp: Float)
    ensures GenE(fp, CELL_T, []) == Gen([OpLoadL(0), OpPushI(0), OpALoad], [])
    ensures TypesE(CELL_T, []) == [[], [ARR], [ARR, TInt]]
    ensures TypesE(CELL_T, [TDouble]) == [[TDouble], [TDouble, ARR], [TDouble, ARR, TInt]]
    ensures TypeOf(CELL_T) == TDouble
  {
    assert [OpLoadL(0)] + [OpPushI(0)] + [OpALoad] == [OpLoadL(0), OpPushI(0), OpALoad];
    var none: seq<Type> := [];
    assert none + [ARR] == [ARR] && none + [ARR, TInt] == [ARR, TInt];
    assert [TDouble] + [ARR] == [TDouble, ARR] && [TDouble] + [ARR, TInt] == [TDouble, ARR, TInt];
  }

  lemma QuotientGenerated(fp: Float)
    ensures var q := Bin(Div, CELL_T, CELL_T, TDouble);
            var cell := [OpLoadL(0), OpPushI(0), OpALoad];
            && GenE(fp, q, []) == Gen(cell + cell + [OpBin(Div)], [])
            && TypesE(q, []) ==
                [[], [ARR], [ARR, TInt], [TDouble], [TDouble, ARR], [TDouble, ARR, TInt], [TDouble, TDouble]]
  {
    hide Compile.GenE, TypesE;
    CellGenerated(fp);
    BinaryShape(fp, Bin(Div, CELL_T, CELL_T, TDouble), CELL_T, CELL_T, OpBin(Div), [], []);
    var none: seq<Type> := [];
    assert none + [TDouble] == [TDouble] && none + [TDouble, TDouble] == [TDouble, TDouble];
  }

  lemma QuotientElaborated(sigs: seq<Sig>)
    ensures ElabE(sigs, BOUND, QUOTIENT) == Done(Bin(Div, CELL_T, CELL_T, TDouble))
  {
    DeclAccepted(sigs);
  }

  lemma QuotientCompiles(fp: Float)
    ensures var q := Bin(Div, CELL_T, CELL_T, TDouble);
            && ElabProgram(Source(QUOTIENT)) == Done(Resolved(q))
            && Divides(TypingFor(fp, Source(QUOTIENT), Resolved(q)))
  {
    hide Compile.GenE, TypesE, TypingFor, ElabE, ElabProgram;
    var q := Bin(Div, CELL_T, CELL_T, TDouble);
    QuotientElaborated(SigsOf(Source(QUOTIENT)));
    PrintAccepted(QUOTIENT, q);
    QuotientGenerated(fp);
    PrintTyping(fp, QUOTIENT, q, [OpLoadL(0), OpPushI(0), OpALoad] + [OpLoadL(0), OpPushI(0), OpALoad] + [OpBin(Div)]);
  }

  /** `int main() { double a[1]; print(-a[0]); return 0; }` is accepted and prints `0`; by type it would print
      the negative of the double 0, another number. */
  lemma NegatedZeroPrintsZero(fp: Float)
    requires Ieee(fp)
    ensures var prog := Resolved(Neg(CELL_T));
            var t := TypingFor(fp, Source(NEGATION), prog);
            && ElabProgram(Source(NEGATION)) == Done(prog)
            && Exec(VmOf(fp, t.image), 10, Start(t.image, 0, [], NOTHING).value) ==
                Ok(Fin(ZERO, 0), Store([[ZERO]], [OutInt(0)]))
            && Exec(TypedVm(fp, t), 10, TypedStart(t, 0, [], NOTHING).value)
               == Ok(Fin(ZERO, 0), Store([[VDbl(0)]], [OutDouble(fp.neg(0))]))
            && !SameText(OutInt(0), OutDouble(fp.neg(0)))
  {
    hide Driver.Exec, Negates, ElabProgram, Start, TypedStart;
    NegationCompiles(fp);
    var t := TypingFor(fp, Source(NEGATION), Resolved(Neg(CELL_T)));
    OneFunction(t);
    NegatesByTag(fp, t);
    NegatesByType(fp, t);
  }

  lemma OneFunction(t: Typed)
    ensures Negates(t) || Divides(t) ==> Start(t.image, 0, [], NOTHING).Some? && TypedStart(t, 0, [], NOTHING).Some?
  {
  }

  /** `int main() { double a[1]; print(a[0] / a[0]); return 0; }` is accepted and stops with a division by zero;
      by type it would print a quotient. */
  lemma ZeroQuotientStops(fp: Float)
    ensures var prog := Resolved(Bin(Div, CELL_T, CELL_T, TDouble));
            var t := TypingFor(fp, Source(QUOTIENT), prog);
            && ElabProgram(Source(QUOTIENT)) == Done(prog)
            && Exec(VmOf(fp, t.image), 13, Start(t.image, 0, [], NOTHING).value) == Trap(DivisionByZero, [])
            && Exec(TypedVm(fp, t), 13, TypedStart(t, 0, [], NOTHING).value)
               == Ok(Fin(ZERO, 0), Store([[VDbl(0)]], [OutDouble(fp.arith(Div, 0, 0))]))
  {
    hide Driver.Exec, Divides, ElabProgram, Start, TypedStart;
    QuotientCompiles(fp);
    var t := TypingFor(fp, Source(QUOTIENT), Resolved(Bin(Div, CELL_T, CELL_T, TDouble)));
    OneFunction(t);
    DividesByTag(fp, t);
    DividesByType(fp, t);
  }
}
