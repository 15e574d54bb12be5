/** Static operand stacks: each instruction of a routine is given one list of types, and every state of every
    run has a stack of that height and, in well-typed programs, of those types. */
module Typing {
  import opened Values
  import opened Ast
  import opened Driver
  import opened Machine

  /** Static types of a function: parameters, result, and one per local slot. */
  datatype FType = FType(params: seq<Type>, ret: Type, slots: seq<Type>)

  /** A module with the types of its functions and a static stack in front of every instruction. */
  datatype Typed = Typed(image: Image, fts: seq<FType>, maps: seq<seq<seq<Type>>>)

  // ----- the checks -----

  function Pushes(i: Instr): (n: nat)
    ensures n <= 1
  {
    match i
    case OpStoreL(_) => 0
    case OpJmp(_) => 0
    case OpJz(_) => 0
    case OpAStore => 0
    case OpPrint => 0
    case OpPop => 0
    case OpRet => 0
    case OpRetV => 0
    case OpHalt => 0
    case _ => 1
  }

  /** The types an instruction takes and leaves fit it. */
  predicate Right(t: Typed, f: nat, i: Instr, taken: seq<Type>, left: seq<Type>)
    requires f < |t.fts| && |taken| == Pops(i) && |left| == Pushes(i)
  {
    match i
    case OpPushC(k) => k < |t.image.consts| && left[0] == (if t.image.consts[k].CInt? then TInt else TDouble)
    case OpPushI(v) => left[0] == TInt || v == 0
    case OpLoadL(slot) => slot < |t.fts[f].slots| && left[0] == t.fts[f].slots[slot]
    case OpStoreL(slot) => slot < |t.fts[f].slots| && taken[0] == t.fts[f].slots[slot]
    case OpBin(op) =>
      && !IsArray(taken[0]) && taken[0] == taken[1]
      && left[0] == if IsComparison(op) then TInt else taken[0]
    case OpNeg => !IsArray(taken[0]) && left[0] == taken[0]
    case OpI2D => taken[0] == TInt && left[0] == TDouble
    case OpD2I => taken[0] == TDouble && left[0] == TInt
    case OpJz(_) => taken[0] == TInt
    case OpCall(g, _) => g < |t.fts| && taken == t.fts[g].params && left[0] == t.fts[g].ret
    case OpNewArr => taken[0] == TInt && IsArray(left[0])
    case OpALoad => IsArray(taken[0]) && taken[1] == TInt && left[0] == Elem(taken[0])
    case OpAStore => IsArray(taken[0]) && taken[1] == TInt && taken[2] == Elem(taken[0])
    case OpPrint => !IsArray(taken[0])
    case _ => true
  }

  /** Instruction `i` turns static stack `a` into `b`; types only matter when `strict`. */
  predicate Moves(strict: bool, t: Typed, f: nat, i: Instr, a: seq<Type>, b: seq<Type>)
    requires strict ==> f < |t.fts|
  {
    && Pops(i) <= |a|
    && var keep := |a| - Pops(i);
    && |b| == keep + Pushes(i) && b[..keep] == a[..keep]
    && (strict ==> Right(t, f, i, a[keep..], b[keep..]))
  }

  /** The static stacks around the instruction at `pc` agree with what it does. */
  predicate FlowOk(strict: bool, t: Typed, f: nat, code: seq<Instr>, map0: seq<seq<Type>>, pc: nat)
    requires pc < |code| == |map0|
    requires strict ==> f < |t.fts|
  {
    match code[pc]
    case OpJmp(x) => x < |code| && map0[x] == map0[pc]
    case OpJz(x) =>
      && x < |code| && pc + 1 < |code| && map0[x] == map0[pc + 1]
      && Moves(strict, t, f, code[pc], map0[pc], map0[pc + 1])
    case OpRet => |map0[pc]| == 1 && (strict ==> map0[pc][0] == t.fts[f].ret)
    case OpRetV => false
    case OpHalt => false
    case _ => pc + 1 < |code| && Moves(strict, t, f, code[pc], map0[pc], map0[pc + 1])
  }

  ghost predicate RoutineOk(strict: bool, t: Typed, f: nat)
    requires f < |t.image.funcs| == |t.maps| && (strict ==> f < |t.fts|)
  {
    var code, map0 := t.image.funcs[f].code, t.maps[f];
    && 0 < |code| == |map0| && map0[0] == []
    && (forall pc :: 0 <= pc < |code| ==> |map0[pc]| <= STACK_MAX)
    && (forall pc {:trigger FlowOk(strict, t, f, code, map0, pc)} ::
          0 <= pc < |code| ==> FlowOk(strict, t, f, code, map0, pc))
    && (strict ==> |t.fts[f].slots| == t.image.funcs[f].nlocals && t.fts[f].params <= t.fts[f].slots
                   && |t.fts[f].params| <= MAX_ARGS)
  }

  ghost predicate Checked(strict: bool, t: Typed) {
    && |t.maps| == |t.image.funcs| && (strict ==> |t.fts| == |t.image.funcs|)
    && forall f :: 0 <= f < |t.image.funcs| ==> RoutineOk(strict, t, f)
  }

  // ----- values -----

  /** Every zeroed cell counts as a value of every type; a double slot therefore holds a double or the
      integer 0. */
  predicate HasType(v: Val, ty: Type, ht: seq<Type>) {
    v == ZERO ||
    match ty
    case TInt => v.VInt?
    case TDouble => v.VDbl?
    case _ => v.VRef? && v.r < |ht| && ht[v.r] == Elem(ty)
  }

  predicate HaveTypes(vs: seq<Val>, tys: seq<Type>, ht: seq<Type>) {
    |vs| == |tys| && forall i :: 0 <= i < |vs| ==> HasType(vs[i], tys[i], ht)
  }

  /** `ht` gives the element type of every array allocated so far. */
  ghost predicate StoreOk(s: Store, ht: seq<Type>) {
    && |s.heap| == |ht|
    && forall r :: 0 <= r < |ht| ==> !IsArray(ht[r]) && forall i :: 0 <= i < |s.heap[r]| ==>
        HasType(s.heap[r][i], ht[r], ht)
  }

  ghost predicate LocalsOk(l: seq<Val>, slots: seq<Type>, ht: seq<Type>) {
    |slots| <= |l| && forall i :: 0 <= i < |slots| ==> HasType(l[i], slots[i], ht)
  }

  lemma TypesKeep(v: Val, ty: Type, ht: seq<Type>, ht1: seq<Type>)
    requires ht <= ht1 && HasType(v, ty, ht)
    ensures HasType(v, ty, ht1)
  {
  }

  lemma LocalsKeep(l: seq<Val>, slots: seq<Type>, ht: seq<Type>, ht1: seq<Type>)
    requires ht <= ht1 && LocalsOk(l, slots, ht)
    ensures LocalsOk(l, slots, ht1)
  {
    forall i | 0 <= i < |slots| ensures HasType(l[i], slots[i], ht1) { TypesKeep(l[i], slots[i], ht, ht1); }
  }

  lemma StackKeeps(vs: seq<Val>, tys: seq<Type>, ht: seq<Type>, ht1: seq<Type>)
    requires ht <= ht1 && HaveTypes(vs, tys, ht)
    ensures HaveTypes(vs, tys, ht1)
  {
    forall i | 0 <= i < |vs| ensures HasType(vs[i], tys[i], ht1) { TypesKeep(vs[i], tys[i], ht, ht1); }
  }

  // ----- states -----

  /** A state of function `f` whose stack has the height of `tys` and, when `strict`, those types; then
      locals and heap have their types too. */
  ghost predicate Fits(strict: bool, t: Typed, c: Cfg, tys: seq<Type>, ht: seq<Type>) {
    && |c.stack| == |tys|
    && (strict ==>
          && c.fn < |t.fts|
          && HaveTypes(c.stack, tys, ht) && LocalsOk(c.locals, t.fts[c.fn].slots, ht) && StoreOk(c.s, ht))
  }

  /** The state fits the static stack of the instruction it is at. */
  ghost predicate Good(strict: bool, t: Typed, c: Cfg, ht: seq<Type>)
    requires Checked(strict, t)
  {
    && c.fn < |t.image.funcs| && RoutineOk(strict, t, c.fn) && c.pc < |t.maps[c.fn]|
    && Fits(strict, t, c, t.maps[c.fn][c.pc], ht)
  }

  predicate RuntimeError(m: Msg) {
    m.DivisionByZero? || m.NegativeLength? || m.NotAnArray? || m.OutOfBounds?
  }

  /** A failure a checked program may have; an access outside an array only if types were not checked. */
  predicate Allowed<T>(strict: bool, r: Res<T>) {
    match r
    case Trap(m, _) => RuntimeError(m)
    case Wrong => !strict
    case _ => false
  }
}
