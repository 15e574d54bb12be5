/** Soundness of the static stacks: one step keeps them, so every run does. */
module TypeSafety {
  import opened Values
  import opened Ast
  import opened Driver
  import opened Machine
  import opened Typing

  /** What an instruction that neither jumps, calls nor returns leaves: a state that fits `tys`. */
  ghost predicate Kept(strict: bool, t: Typed, c: Cfg, act: Act, tys: seq<Type>, ht: seq<Type>, ht1: seq<Type>) {
    match act
    case Go(c1) => c1.fn == c.fn && c1.pc == c.pc && ht <= ht1 && Fits(strict, t, c1, tys, ht1)
    case Fault(r) => Allowed(strict, r)
    case _ => false
  }

  lemma PushKept(strict: bool, t: Typed, c: Cfg, c0: Cfg, v: Val, tys: seq<Type>, ty: Type, ht: seq<Type>)
    requires Fits(strict, t, c0, tys, ht) && c0.fn == c.fn && c0.pc == c.pc && |tys| < STACK_MAX
    requires strict ==> HasType(v, ty, ht)
    ensures Kept(strict, t, c, Push(c0, v), tys + [ty], ht, ht)
  {
  }

  lemma PushersKept(fp: Float, strict: bool, t: Typed, i: Instr, c: Cfg, a: seq<Type>, b: seq<Type>, ht: seq<Type>)
    requires i.OpPushC? || i.OpPushI? || i.OpLoadL?
    requires strict ==> c.fn < |t.fts|
    requires Moves(strict, t, c.fn, i, a, b) && Fits(strict, t, c, a, ht) && |b| <= STACK_MAX
    ensures Kept(strict, t, c, Perform(fp, t.image.consts, i, c), b, ht, ht)
  {
    hide StoreOk;
    assert a[..|a|] == a;
    assert b == a + [b[|a|]];
    match i
    case OpPushC(k) =>
      if k < |t.image.consts| { PushKept(strict, t, c, c, ConstVal(t.image.consts[k]), a, b[|a|], ht); }
    case OpPushI(v) => PushKept(strict, t, c, c, VInt(v), a, b[|a|], ht);
    case OpLoadL(slot) => if slot < |c.locals| { PushKept(strict, t, c, c, c.locals[slot], a, b[|a|], ht); }
  }

  /** The operands of an instruction, and the state without them. */
  lemma Operands(strict: bool, t: Typed, c: Cfg, a: seq<Type>, n: nat, ht: seq<Type>)
    requires Fits(strict, t, c, a, ht) && n <= |a|
    ensures Fits(strict, t, c.(stack := Drop(c.stack, n)), a[..|a| - n], ht)
    ensures strict ==> forall j :: |a| - n <= j < |a| ==> HasType(c.stack[j], a[j], ht)
  {
    hide StoreOk, LocalsOk, HasType;
  }

  lemma UnaryKept(fp: Float, strict: bool, t: Typed, i: Instr, c: Cfg, a: seq<Type>, b: seq<Type>, ht: seq<Type>)
    requires i.OpNeg? || i.OpI2D? || i.OpD2I?
    requires strict ==> c.fn < |t.fts|
    requires Moves(strict, t, c.fn, i, a, b) && Fits(strict, t, c, a, ht) && |b| <= STACK_MAX
    ensures Kept(strict, t, c, Perform(fp, t.image.consts, i, c), b, ht, ht)
  {
    hide StoreOk, LocalsOk, HaveTypes;
    Operands(strict, t, c, a, 1, ht);
    var n := |a| - 1;
    assert b == a[..n] + [b[n]];
    var v := c.stack[n];
    var r := if i.OpNeg? then Negate(fp, v) else if i.OpI2D? then IntToDouble(fp, v) else DoubleToInt(fp, v);
    PushKept(strict, t, c, c.(stack := Drop(c.stack, 1)), r, a[..n], b[n], ht);
  }

  /** Arithmetic on two values of one scalar type: a value of the result type, or a division by zero. */
  lemma BinopTyped(fp: Float, op: Op, x: Val, y: Val, ty: Type, s: Store, ht: seq<Type>)
    requires !IsArray(ty) && HasType(x, ty, ht) && HasType(y, ty, ht)
    ensures var r := DoBinop(fp, op, x, y, s);
            match r
            case Ok(v, s1) => s1 == s && HasType(v, if IsComparison(op) then TInt else ty, ht)
            case Trap(m, _) => m.DivisionByZero?
            case _ => false
  {
  }

  lemma BinKept(fp: Float, strict: bool, t: Typed, i: Instr, c: Cfg, a: seq<Type>, b: seq<Type>, ht: seq<Type>)
    requires i.OpBin?
    requires strict ==> c.fn < |t.fts|
    requires Moves(strict, t, c.fn, i, a, b) && Fits(strict, t, c, a, ht) && |b| <= STACK_MAX
    ensures Kept(strict, t, c, Perform(fp, t.image.consts, i, c), b, ht, ht)
  {
    hide StoreOk, LocalsOk, HaveTypes, HasType;
    Operands(strict, t, c, a, 2, ht);
    var n := |a| - 2;
    assert b == a[..n] + [b[n]];
    var x, y := c.stack[n], c.stack[n + 1];
    if strict { BinopTyped(fp, i.op, x, y, a[n], c.s, ht); }
    var r := DoBinop(fp, i.op, x, y, c.s);
    if r.Ok? { PushKept(strict, t, c, c.(stack := Drop(c.stack, 2)), r.val, a[..n], b[n], ht); }
  }

  /** A new array gets the element type its reference is declared with. */
  lemma NewArrayTyped(fp: Float, len: Val, s: Store, ty: Type, ht: seq<Type>)
    requires StoreOk(s, ht) && IsArray(ty)
    ensures var r := NewArray(fp, len, s);
            match r
            case Ok(v, s1) => HasType(v, ty, ht + [Elem(ty)]) && StoreOk(s1, ht + [Elem(ty)])
            case Trap(m, _) => m.NegativeLength?
            case _ => false
  {
    var r := NewArray(fp, len, s);
    if r.Ok? {
      var h1 := ht + [Elem(ty)];
      forall k | 0 <= k < |h1|
        ensures !IsArray(h1[k]) && forall i :: 0 <= i < |r.store.heap[k]| ==> HasType(r.store.heap[k][i], h1[k], h1)
      {
        if k < |ht| { assert r.store.heap[k] == s.heap[k]; }
      }
    }
  }

  lemma NewArrKept(fp: Float, strict: bool, t: Typed, i: Instr, c: Cfg, a: seq<Type>, b: seq<Type>, ht: seq<Type>)
    returns (ht1: seq<Type>)
    requires i.OpNewArr?
    requires strict ==> c.fn < |t.fts|
    requires Moves(strict, t, c.fn, i, a, b) && Fits(strict, t, c, a, ht) && |b| <= STACK_MAX
    ensures |b| > 0 && ht1 == ht + [Elem(b[|b| - 1])]
    ensures Kept(strict, t, c, Perform(fp, t.image.consts, i, c), b, ht, ht1)
  {
    hide StoreOk, LocalsOk, HaveTypes, HasType;
    Operands(strict, t, c, a, 1, ht);
    var n := |a| - 1;
    assert b == a[..n] + [b[n]];
    var r := NewArray(fp, c.stack[n], c.s);
    ht1 := ht + [Elem(b[n])];
    if strict { NewArrayTyped(fp, c.stack[n], c.s, b[n], ht); }
    if r.Ok? {
      var c1 := c.(stack := Drop(c.stack, 1), s := r.store);
      if strict {
        StackKeeps(c1.stack, a[..n], ht, ht1);
        LocalsKeep(c.locals, t.fts[c.fn].slots, ht, ht1);
      }
      PushKept(strict, t, c1, c1, r.val, a[..n], b[n], ht1);
    }
  }

  lemma LoadTyped(fp: Float, ref: Val, idx: Val, s: Store, ty: Type, ht: seq<Type>)
    requires StoreOk(s, ht) && IsArray(ty) && HasType(ref, ty, ht)
    ensures var r := Load(fp, ref, idx, s);
            match r
            case Ok(v, s1) => s1 == s && HasType(v, Elem(ty), ht)
            case Trap(m, _) => m.NotAnArray? || m.OutOfBounds?
            case _ => false
  {
  }

  lemma LoadKept(fp: Float, strict: bool, t: Typed, i: Instr, c: Cfg, a: seq<Type>, b: seq<Type>, ht: seq<Type>)
    requires i.OpALoad?
    requires strict ==> c.fn < |t.fts|
    requires Moves(strict, t, c.fn, i, a, b) && Fits(strict, t, c, a, ht) && |b| <= STACK_MAX
    ensures Kept(strict, t, c, Perform(fp, t.image.consts, i, c), b, ht, ht)
  {
    hide StoreOk, LocalsOk, HaveTypes, HasType;
    Operands(strict, t, c, a, 2, ht);
    var n := |a| - 2;
    assert b == a[..n] + [b[n]];
    if strict { LoadTyped(fp, c.stack[n], c.stack[n + 1], c.s, a[n], ht); }
    var r := Load(fp, c.stack[n], c.stack[n + 1], c.s);
    if r.Ok? { PushKept(strict, t, c, c.(stack := Drop(c.stack, 2)), r.val, a[..n], b[n], ht); }
  }

  lemma SaveTyped(fp: Float, ref: Val, idx: Val, v: Val, s: Store, ty: Type, ht: seq<Type>)
    requires StoreOk(s, ht) && IsArray(ty) && HasType(ref, ty, ht) && HasType(v, Elem(ty), ht)
    ensures var r := Save(fp, ref, idx, v, s);
            match r
            case Ok(_, s1) => StoreOk(s1, ht)
            case Trap(m, _) => m.NotAnArray? || m.OutOfBounds?
            case _ => false
  {
    var r := Save(fp, ref, idx, v, s);
    if r.Ok? {
      forall k | 0 <= k < |ht|
        ensures forall i :: 0 <= i < |r.store.heap[k]| ==> HasType(r.store.heap[k][i], ht[k], ht)
      {
        if k != ref.r { assert r.store.heap[k] == s.heap[k]; }
      }
    }
  }

  lemma SaveKept(fp: Float, strict: bool, t: Typed, i: Instr, c: Cfg, a: seq<Type>, b: seq<Type>, ht: seq<Type>)
    requires i.OpAStore?
    requires strict ==> c.fn < |t.fts|
    requires Moves(strict, t, c.fn, i, a, b) && Fits(strict, t, c, a, ht)
    ensures Kept(strict, t, c, Perform(fp, t.image.consts, i, c), b, ht, ht)
  {
    hide StoreOk, LocalsOk, HaveTypes, HasType;
    Operands(strict, t, c, a, 3, ht);
    var n := |a| - 3;
    assert b == a[..n];
    if strict { SaveTyped(fp, c.stack[n], c.stack[n + 1], c.stack[n + 2], c.s, a[n], ht); }
  }

  lemma SinkKept(fp: Float, strict: bool, t: Typed, i: Instr, c: Cfg, a: seq<Type>, b: seq<Type>, ht: seq<Type>)
    requires i.OpStoreL? || i.OpPrint? || i.OpPop?
    requires strict ==> c.fn < |t.fts|
    requires Moves(strict, t, c.fn, i, a, b) && Fits(strict, t, c, a, ht)
    ensures Kept(strict, t, c, Perform(fp, t.image.consts, i, c), b, ht, ht)
  {
    hide HaveTypes, HasType;
    Operands(strict, t, c, a, 1, ht);
    var n := |a| - 1;
    assert b == a[..n];
  }

  /** Element types after an instruction: a new array has the type its reference is left with. */
  function HeapTypes(i: Instr, b: seq<Type>, ht: seq<Type>): seq<Type> {
    if i.OpNewArr? && b != [] then ht + [Elem(b[|b| - 1])] else ht
  }

  lemma PlainKept(fp: Float, strict: bool, t: Typed, i: Instr, c: Cfg, a: seq<Type>, b: seq<Type>, ht: seq<Type>)
    returns (ht1: seq<Type>)
    requires !i.OpJmp? && !i.OpJz? && !i.OpCall? && !i.OpRet? && !i.OpRetV? && !i.OpHalt?
    requires strict ==> c.fn < |t.fts|
    requires Moves(strict, t, c.fn, i, a, b) && Fits(strict, t, c, a, ht) && |b| <= STACK_MAX
    ensures ht1 == HeapTypes(i, b, ht)
    ensures Kept(strict, t, c, Perform(fp, t.image.consts, i, c), b, ht, ht1)
  {
    hide Moves, Perform, Kept, Fits;
    ht1 := ht;
    if i.OpPushC? || i.OpPushI? || i.OpLoadL? { PushersKept(fp, strict, t, i, c, a, b, ht); }
    else if i.OpNeg? || i.OpI2D? || i.OpD2I? { UnaryKept(fp, strict, t, i, c, a, b, ht); }
    else if i.OpBin? { BinKept(fp, strict, t, i, c, a, b, ht); }
    else if i.OpNewArr? { ht1 := NewArrKept(fp, strict, t, i, c, a, b, ht); }
    else if i.OpALoad? { LoadKept(fp, strict, t, i, c, a, b, ht); }
    else if i.OpAStore? { SaveKept(fp, strict, t, i, c, a, b, ht); }
    else { SinkKept(fp, strict, t, i, c, a, b, ht); }
  }

  /** What one step of a good state leads to. */
  ghost predicate StepOk(strict: bool, t: Typed, c: Cfg, act: Act, ht: seq<Type>, ht1: seq<Type>)
    requires Checked(strict, t) && Good(strict, t, c, ht)
  {
    match act
    case Go(c1) => ht <= ht1 && c1.fn == c.fn && Good(strict, t, c1, ht1)
    case Stop(v, s) => strict ==> HasType(v, t.fts[c.fn].ret, ht) && StoreOk(s, ht)
    case Fault(r) => Allowed(strict, r)
    case Enter(g, args, c1) =>
      && c1.fn == c.fn && c1.pc < |t.maps[c.fn]|
      && var b := t.maps[c.fn][c1.pc];
      && b != [] && Fits(strict, t, c1, b[..|b| - 1], ht)
      && (strict ==> g < |t.fts| && b[|b| - 1] == t.fts[g].ret && HaveTypes(args, t.fts[g].params, ht))
  }

  /** Element types after the instruction at `c`. */
  function NextHeapTypes(t: Typed, c: Cfg, ht: seq<Type>): seq<Type> {
    if c.fn < |t.image.funcs| && c.fn < |t.maps| && c.pc < |t.image.funcs[c.fn].code| && c.pc + 1 < |t.maps[c.fn]|
    then HeapTypes(t.image.funcs[c.fn].code[c.pc], t.maps[c.fn][c.pc + 1], ht)
    else ht
  }

  lemma StepGood(fp: Float, strict: bool, t: Typed, c: Cfg, ht: seq<Type>) returns (ht1: seq<Type>)
    requires Checked(strict, t) && Good(strict, t, c, ht)
    ensures StepOk(strict, t, c, Step(fp, t.image, c), ht, ht1)
    ensures ht1 == NextHeapTypes(t, c, ht)
  {
    hide Perform, Fits, Moves;
    var i := t.image.funcs[c.fn].code[c.pc];
    var map0 := t.maps[c.fn];
    assert FlowOk(strict, t, c.fn, t.image.funcs[c.fn].code, map0, c.pc);
    ht1 := ht;
    var c0 := c.(pc := c.pc + 1);
    assert Fits(strict, t, c0, map0[c.pc], ht) by { FitsAnywhere(strict, t, c, c.pc + 1, map0[c.pc], ht); }
    if i.OpJmp? || i.OpJz? {
      JumpGood(fp, strict, t, c, ht);
    } else if i.OpRet? {
      RetGood(fp, strict, t, c, ht);
    } else if i.OpCall? {
      CallGood(fp, strict, t, c, ht);
    } else {
      ht1 := PlainKept(fp, strict, t, i, c0, map0[c.pc], map0[c.pc + 1], ht);
    }
  }

  lemma FitsAnywhere(strict: bool, t: Typed, c: Cfg, pc: nat, tys: seq<Type>, ht: seq<Type>)
    requires Fits(strict, t, c, tys, ht)
    ensures Fits(strict, t, c.(pc := pc), tys, ht)
  {
  }

  lemma JumpGood(fp: Float, strict: bool, t: Typed, c: Cfg, ht: seq<Type>)
    requires Checked(strict, t) && Good(strict, t, c, ht)
    requires var i := t.image.funcs[c.fn].code[c.pc]; i.OpJmp? || i.OpJz?
    ensures StepOk(strict, t, c, Step(fp, t.image, c), ht, ht)
  {
    hide StoreOk, LocalsOk, HaveTypes, HasType;
    var map0 := t.maps[c.fn];
    var a := map0[c.pc];
    assert FlowOk(strict, t, c.fn, t.image.funcs[c.fn].code, map0, c.pc);
    if t.image.funcs[c.fn].code[c.pc].OpJz? {
      Operands(strict, t, c, a, 1, ht);
      assert map0[c.pc + 1] == a[..|a| - 1];
    }
  }

  lemma RetGood(fp: Float, strict: bool, t: Typed, c: Cfg, ht: seq<Type>)
    requires Checked(strict, t) && Good(strict, t, c, ht)
    requires t.image.funcs[c.fn].code[c.pc].OpRet?
    ensures StepOk(strict, t, c, Step(fp, t.image, c), ht, ht)
  {
    hide StoreOk, LocalsOk, HasType;
    assert FlowOk(strict, t, c.fn, t.image.funcs[c.fn].code, t.maps[c.fn], c.pc);
  }

  lemma CallGood(fp: Float, strict: bool, t: Typed, c: Cfg, ht: seq<Type>)
    requires Checked(strict, t) && Good(strict, t, c, ht)
    requires t.image.funcs[c.fn].code[c.pc].OpCall?
    ensures StepOk(strict, t, c, Step(fp, t.image, c), ht, ht)
  {
    hide StoreOk, LocalsOk, HasType;
    var i := t.image.funcs[c.fn].code[c.pc];
    var map0 := t.maps[c.fn];
    assert FlowOk(strict, t, c.fn, t.image.funcs[c.fn].code, map0, c.pc);
    var a, b := map0[c.pc], map0[c.pc + 1];
    assert |b| <= STACK_MAX;
    Operands(strict, t, c, a, i.argc, ht);
    var n := |a| - i.argc;
    assert b == a[..n] + [b[n]];
    assert b[..|b| - 1] == a[..n];
    if strict {
      assert RoutineOk(strict, t, i.f);
      assert HaveTypes(c.stack[n..], a[n..], ht);
    }
  }

  /** A call begins in a good state. */
  lemma StartGood(strict: bool, t: Typed, f: nat, args: seq<Val>, s: Store, ht: seq<Type>)
    requires Checked(strict, t) && f < |t.image.funcs|
    requires strict ==> StoreOk(s, ht) && (args == [] || HaveTypes(args, t.fts[f].params, ht))
    ensures Good(strict, t, Start(t.image, f, args, s).value, ht)
  {
    hide StoreOk;
    assert RoutineOk(strict, t, f);
    if strict {
      var slots, l := t.fts[f].slots, Frame(t.image.funcs[f].nlocals, args);
      forall i | 0 <= i < |slots| ensures HasType(l[i], slots[i], ht) {
        if i < |args| { assert slots[i] == t.fts[f].params[i]; }
      }
    }
  }

  /** The caller goes on in a good state. */
  lemma ResumeGood(strict: bool, t: Typed, c: Cfg, c1: Cfg, v: Val, s: Store, ht: seq<Type>, ht1: seq<Type>)
    requires Checked(strict, t) && c1.fn < |t.image.funcs| && RoutineOk(strict, t, c1.fn)
    requires c1.pc < |t.maps[c1.fn]|
    requires var b := t.maps[c1.fn][c1.pc]; b != [] && Fits(strict, t, c1, b[..|b| - 1], ht)
    requires strict ==> ht <= ht1 && StoreOk(s, ht1) && HasType(v, var b := t.maps[c1.fn][c1.pc]; b[|b| - 1], ht1)
    ensures Good(strict, t, Resume(c1, v, s), ht1)
  {
    hide StoreOk, LocalsOk;
    if strict {
      var b := t.maps[c1.fn][c1.pc];
      StackKeeps(c1.stack, b[..|b| - 1], ht, ht1);
      LocalsKeep(c1.locals, t.fts[c1.fn].slots, ht, ht1);
    }
  }

  // ----- whole runs -----

  /** `good` holds of every state of the next `k` steps, in the functions called as well. */
  ghost predicate Throughout(vm: Vm, k: nat, c: Cfg, good: Cfg -> bool)
    decreases k
  {
    && good(c)
    && (k == 0 ||
        match vm.step(c)
        case Go(c1) => Throughout(vm, k - 1, c1, good)
        case Stop(_, _) => true
        case Fault(_) => true
        case Enter(f, args, c1) =>
          var c0 := vm.start(f, args, c1.s);
          var r := Run(vm, k - 1, f, args, c1.s);
          && (c0.Some? ==> Throughout(vm, k - 1, c0.value, good))
          && (r.Ok? ==> Throughout(vm, r.val.left, Resume(c1, r.val.v, r.store), good)))
  }

  /** A state with the number of steps left. */
  type Moment = (Cfg, nat)

  /** One step later: behind an instruction, at the start of a function called, or back from it. */
  ghost predicate Follows(vm: Vm, a: Moment, b: Moment) {
    a.1 > 0 &&
    match vm.step(a.0)
    case Go(c1) => b == (c1, a.1 - 1)
    case Enter(f, args, c1) =>
      var r := Run(vm, a.1 - 1, f, args, c1.s);
      || (b.1 == a.1 - 1 && vm.start(f, args, c1.s) == Some(b.0))
      || (r.Ok? && b == (Resume(c1, r.val.v, r.store), r.val.left))
    case _ => false
  }

  ghost predicate Trace(vm: Vm, tr: seq<Moment>) {
    tr != [] && forall i :: 0 <= i < |tr| - 1 ==> Follows(vm, tr[i], tr[i + 1])
  }

  /** Every trace from `a` ends in a state of which `good` holds. */
  ghost predicate OnEveryTrace(vm: Vm, a: Moment, good: Cfg -> bool) {
    forall tr: seq<Moment> :: Trace(vm, tr) && tr[0] == a ==> good(tr[|tr| - 1].0)
  }

  /** Holding throughout is holding at the end of every trace. */
  lemma ThroughoutIff(vm: Vm, k: nat, c: Cfg, good: Cfg -> bool)
    ensures Throughout(vm, k, c, good) <==> OnEveryTrace(vm, (c, k), good)
  {
    if Throughout(vm, k, c, good) {
      forall tr: seq<Moment> | Trace(vm, tr) && tr[0] == (c, k) ensures good(tr[|tr| - 1].0) {
        TraceGood(vm, k, c, good, tr);
      }
    } else if OnEveryTrace(vm, (c, k), good) {
      EveryStateGood(vm, k, c, good);
    }
  }

  lemma {:induction false} TraceGood(vm: Vm, k: nat, c: Cfg, good: Cfg -> bool, tr: seq<Moment>)
    requires Throughout(vm, k, c, good) && Trace(vm, tr) && tr[0] == (c, k)
    ensures good(tr[|tr| - 1].0)
    decreases |tr|
  {
    if |tr| > 1 {
      var rest := tr[1..];
      assert Follows(vm, tr[0], tr[0 + 1]);
      forall i | 0 <= i < |rest| - 1 ensures Follows(vm, rest[i], rest[i + 1]) {
        assert Follows(vm, tr[i + 1], tr[i + 1 + 1]);
      }
      TraceGood(vm, rest[0].1, rest[0].0, good, rest);
    }
  }

  lemma OneLater(vm: Vm, a: Moment, b: Moment, good: Cfg -> bool)
    requires OnEveryTrace(vm, a, good) && Follows(vm, a, b)
    ensures OnEveryTrace(vm, b, good)
  {
    hide Follows;
    forall tr: seq<Moment> | Trace(vm, tr) && tr[0] == b ensures good(tr[|tr| - 1].0) {
      var longer := [a] + tr;
      forall i | 0 <= i < |longer| - 1 ensures Follows(vm, longer[i], longer[i + 1]) {
        if i > 0 { assert Follows(vm, tr[i - 1], tr[i - 1 + 1]); }
      }
      assert Trace(vm, longer) && longer[0] == a;
    }
  }

  lemma {:induction false} EveryStateGood(vm: Vm, k: nat, c: Cfg, good: Cfg -> bool)
    requires OnEveryTrace(vm, (c, k), good)
    ensures Throughout(vm, k, c, good)
    decreases k
  {
    hide OnEveryTrace;
    assert good(c) by { HereGood(vm, (c, k), good); }
    if k > 0 {
      match vm.step(c)
      case Go(c1) =>
        OneLater(vm, (c, k), (c1, k - 1), good);
        EveryStateGood(vm, k - 1, c1, good);
      case Enter(f, args, c1) =>
        var c0 := vm.start(f, args, c1.s);
        var r := Run(vm, k - 1, f, args, c1.s);
        if c0.Some? {
          OneLater(vm, (c, k), (c0.value, k - 1), good);
          EveryStateGood(vm, k - 1, c0.value, good);
        }
        if r.Ok? {
          OneLater(vm, (c, k), (Resume(c1, r.val.v, r.store), r.val.left), good);
          EveryStateGood(vm, r.val.left, Resume(c1, r.val.v, r.store), good);
        }
      case _ =>
    }
  }

  lemma HereGood(vm: Vm, a: Moment, good: Cfg -> bool)
    requires OnEveryTrace(vm, a, good)
    ensures good(a.0)
  {
    assert Trace(vm, [a]);
  }

  ghost predicate IsGood(strict: bool, t: Typed, c: Cfg) {
    Checked(strict, t) && exists ht :: Good(strict, t, c, ht)
  }

  /** How a run of function `f` may end. */
  ghost predicate GoodEnd(strict: bool, t: Typed, f: nat, r: Res<Fin>, ht: seq<Type>, ht1: seq<Type>)
    requires strict ==> f < |t.fts|
  {
    match r
    case Ok(fin, s) => strict ==> ht <= ht1 && HasType(fin.v, t.fts[f].ret, ht1) && StoreOk(s, ht1)
    case Timeout => true
    case _ => Allowed(strict, r)
  }

  /** The static stacks hold of every state of every run, and runs only end as they may. */
  lemma {:induction false} RunGood(fp: Float, strict: bool, t: Typed, k: nat, c: Cfg, ht: seq<Type>)
    returns (ht1: seq<Type>)
    requires Checked(strict, t) && Good(strict, t, c, ht)
    ensures Throughout(VmOf(fp, t.image), k, c, x => IsGood(strict, t, x))
    ensures GoodEnd(strict, t, c.fn, Exec(VmOf(fp, t.image), k, c), ht, ht1)
    decreases k
  {
    hide Machine.Step, Good, Checked, Fits, HasType, HaveTypes, StoreOk, LocalsOk;
    assert IsGood(strict, t, c);
    ht1 := ht;
    if k > 0 {
      var htS := StepGood(fp, strict, t, c, ht);
      match Step(fp, t.image, c)
      case Go(c1) => ht1 := RunGood(fp, strict, t, k - 1, c1, htS);
      case Stop(_, _) =>
      case Fault(_) =>
      case Enter(g, args, c1) => ht1 := RunCall(fp, strict, t, k, c, ht);
    }
  }

  lemma {:induction false} RunCall(fp: Float, strict: bool, t: Typed, k: nat, c: Cfg,
                                   ht: seq<Type>) returns (ht1: seq<Type>)
    requires Checked(strict, t) && Good(strict, t, c, ht) && k > 0 && Step(fp, t.image, c).Enter?
    ensures Throughout(VmOf(fp, t.image), k, c, x => IsGood(strict, t, x))
    ensures GoodEnd(strict, t, c.fn, Exec(VmOf(fp, t.image), k, c), ht, ht1)
    decreases k, 0
  {
    hide Machine.Step, Fits, HasType, HaveTypes, StoreOk, LocalsOk;
    var _ := StepGood(fp, strict, t, c, ht);
    var act := Step(fp, t.image, c);
    assert IsGood(strict, t, c);
    ht1 := ht;
    FitsStore(strict, t, act.c, ht);
    if act.f < |t.image.funcs| {
      StartGood(strict, t, act.f, act.args, act.c.s, ht);
      var c0 := Start(t.image, act.f, act.args, act.c.s).value;
      var htC := RunGood(fp, strict, t, k - 1, c0, ht);
      var r := Exec(VmOf(fp, t.image), k - 1, c0);
      if r.Ok? {
        ResumeGood(strict, t, c, act.c, r.val.v, r.store, ht, htC);
        ht1 := RunGood(fp, strict, t, r.val.left, Resume(act.c, r.val.v, r.store), htC);
      }
    }
  }

  lemma FitsStore(strict: bool, t: Typed, c: Cfg, ht: seq<Type>)
    ensures forall tys :: Fits(strict, t, c, tys, ht) && strict ==> StoreOk(c.s, ht)
  {
  }

  // ----- what a good state shows -----

  /** Every visit of an instruction finds the same stack height, enough operands, and room for its result. */
  lemma HeightIsStatic(strict: bool, t: Typed, c: Cfg)
    requires IsGood(strict, t, c)
    ensures c.fn < |t.image.funcs| && c.pc < |t.image.funcs[c.fn].code|
    ensures |c.stack| == |t.maps[c.fn][c.pc]|
    ensures var i := t.image.funcs[c.fn].code[c.pc];
            Pops(i) <= |c.stack| && |c.stack| - Pops(i) + Pushes(i) <= STACK_MAX
  {
    var ht :| Good(strict, t, c, ht);
    assert FlowOk(strict, t, c.fn, t.image.funcs[c.fn].code, t.maps[c.fn], c.pc);
  }

  /** A conversion always reads the member of the union that was written: the integer of an integer, the
      bits of a double.  The one other value it meets, a zeroed cell, has the bits of the double 0. */
  lemma ConversionsReadTheirType(fp: Float, t: Typed, c: Cfg)
    requires IsGood(true, t, c)
    ensures c.fn < |t.image.funcs| && c.pc < |t.image.funcs[c.fn].code| && |c.stack| == |t.maps[c.fn][c.pc]|
    ensures var i, n := t.image.funcs[c.fn].code[c.pc], |c.stack|;
            && (i.OpI2D? ==> n > 0 && c.stack[n - 1].VInt? && RawInt(fp, c.stack[n - 1]) == c.stack[n - 1].i)
            && (i.OpD2I? ==>
                  && n > 0
                  && (c.stack[n - 1].VDbl? || (c.stack[n - 1] == ZERO && RawDouble(fp, c.stack[n - 1]) == 0)))
  {
    hide StoreOk, LocalsOk;
    HeightIsStatic(true, t, c);
    var ht :| Good(true, t, c, ht);
    assert FlowOk(true, t, c.fn, t.image.funcs[c.fn].code, t.maps[c.fn], c.pc);
    var n := |c.stack|;
    if n > 0 { assert HasType(c.stack[n - 1], t.maps[c.fn][c.pc][n - 1], ht); }
  }
}
