/** The machine as its static types would have it: doubles are always tagged as doubles, and arithmetic is
    chosen by type.  The real one keeps zeroed cells as the integer 0 and chooses by tag. */
module TypedMachine {
  import opened Values
  import opened Ast
  import opened Driver
  import opened Machine
  import opened Typing
  import opened TypeSafety
  import opened ZeroCells

  /** What a zeroed cell of type `ty` should hold. */
  function Zero(ty: Type): Val { if ty.TDouble? then VDbl(0) else ZERO }

  function Top(tys: seq<Type>): Type { if tys == [] then TInt else tys[|tys| - 1] }

  function NewTypedArray(fp: Float, len: Val, elem: Type, s: Store): Res<Val> {
    var n := AsInt(fp, len);
    if n < 0 then Trap(NegativeLength, s.out)
    else Ok(VRef(|s.heap|), s.(heap := s.heap + [seq(n, _ => Zero(elem))]))
  }

  /** Effect of instruction `i` between static stacks `a` and `b`. */
  function TypedPerform(fp: Float, consts: seq<Const>, i: Instr, a: seq<Type>, b: seq<Type>, c: Cfg): Act {
    var st := c.stack;
    var n := |st|;
    if i.OpPushI? && Top(b).TDouble? then Push(c, VDbl(0))
    else if i.OpBin? && n >= 2 && Top(a).TDouble? then
      PushResult(c.(stack := Drop(st, 2)), PureBinop(fp, i.op, RawDouble(fp, st[n - 2]), RawDouble(fp, st[n - 1]), c.s))
    else if i.OpNeg? && n >= 1 && Top(a).TDouble? then
      Push(c.(stack := Drop(st, 1)), VDbl(fp.neg(RawDouble(fp, st[n - 1]))))
    else if i.OpNewArr? && n >= 1 then
      PushResult(c.(stack := Drop(st, 1)), NewTypedArray(fp, st[n - 1], Elem(Top(b)), c.s))
    else Perform(fp, consts, i, c)
  }

  function TypedStep(fp: Float, t: Typed, c: Cfg): Act {
    if c.fn < |t.image.funcs| && c.pc < |t.image.funcs[c.fn].code| && c.fn < |t.maps| && c.pc + 1 < |t.maps[c.fn]| then
      TypedPerform(fp, t.image.consts, t.image.funcs[c.fn].code[c.pc], t.maps[c.fn][c.pc], t.maps[c.fn][c.pc + 1],
                   c.(pc := c.pc + 1))
    else Step(fp, t.image, c)
  }

  function TypedFrame(slots: seq<Type>, n: nat, args: seq<Val>): (l: seq<Val>)
    ensures |l| == Max(n, 1)
  {
    seq(Max(n, 1), i requires 0 <= i =>
      if i < |args| && i < n then args[i] else if i < |slots| then Zero(slots[i]) else ZERO)
  }

  function TypedStart(t: Typed, f: nat, args: seq<Val>, s: Store): Option<Cfg> {
    if f >= |t.image.funcs| then None
    else
      var slots := if f < |t.fts| then t.fts[f].slots else [];
      Some(Cfg(f, 0, [], TypedFrame(slots, t.image.funcs[f].nlocals, args), s))
  }

  function TypedVm(fp: Float, t: Typed): Vm {
    Vm(c => TypedStep(fp, t, c), (f: nat, args: seq<Val>, s: Store) => TypedStart(t, f, args, s))
  }

  // ----- states that stand for each other -----

  /** `w` is `v` with its type's tag. */
  predicate Tagged(v: Val, w: Val, ty: Type) { w == if v == ZERO then Zero(ty) else v }

  predicate AllTagged(vs: seq<Val>, ws: seq<Val>, tys: seq<Type>) {
    |vs| == |ws| == |tys| && forall i :: 0 <= i < |vs| ==> Tagged(vs[i], ws[i], tys[i])
  }

  ghost predicate SlotsTagged(vs: seq<Val>, ws: seq<Val>, slots: seq<Type>) {
    |slots| <= |vs| == |ws| && forall i :: 0 <= i < |slots| ==> Tagged(vs[i], ws[i], slots[i])
  }

  /** The same text: the integer 0 and the double 0 are both printed as `0`. */
  predicate SameText(a: Out, b: Out) { a == b || (a == OutInt(0) && b == OutDouble(0)) }

  predicate SameTexts(a: seq<Out>, b: seq<Out>) {
    |a| == |b| && forall i :: 0 <= i < |a| ==> SameText(a[i], b[i])
  }

  ghost predicate StoreTagged(s: Store, z: Store, ht: seq<Type>) {
    && |s.heap| == |z.heap| == |ht| && SameTexts(s.out, z.out)
    && forall r :: 0 <= r < |ht| ==>
         |s.heap[r]| == |z.heap[r]| && forall i :: 0 <= i < |s.heap[r]| ==> Tagged(s.heap[r][i], z.heap[r][i], ht[r])
  }

  /** Two states of one function, operands of the types `tys`. */
  ghost predicate Alike(t: Typed, c: Cfg, d: Cfg, tys: seq<Type>, ht: seq<Type>) {
    && d.fn == c.fn && d.pc == c.pc && c.fn < |t.fts|
    && AllTagged(c.stack, d.stack, tys) && SlotsTagged(c.locals, d.locals, t.fts[c.fn].slots)
    && StoreTagged(c.s, d.s, ht)
  }

  predicate SameFault(r: Res<Val>, q: Res<Val>) {
    r.Trap? && q.Trap? && r.msg == q.msg && SameTexts(r.out, q.out)
  }

  /** What an instruction that neither jumps, calls nor returns leaves. */
  ghost predicate AlikeActs(t: Typed, x: Act, y: Act, tys: seq<Type>, ht: seq<Type>) {
    match (x, y)
    case (Go(c), Go(d)) => Alike(t, c, d, tys, ht)
    case (Fault(r), Fault(q)) => SameFault(r, q)
    case _ => false
  }

  /** The machines have parted: different values on top, or only one of them has stopped with an error. */
  ghost predicate Apart(x: Act, y: Act, tys: seq<Type>) {
    (x.Go? && y.Go? && !AllTagged(x.c.stack, y.c.stack, tys)) || (x.Fault? && y.Go?)
  }

  // ----- one instruction -----

  lemma PushAlike(t: Typed, c: Cfg, d: Cfg, v: Val, w: Val, tys: seq<Type>, ty: Type, ht: seq<Type>)
    requires Alike(t, c, d, tys, ht) && Tagged(v, w, ty) && |tys| < STACK_MAX
    ensures AlikeActs(t, Push(c, v), Push(d, w), tys + [ty], ht)
  {
    hide SlotsTagged, StoreTagged;
  }

  lemma DropAlike(t: Typed, c: Cfg, d: Cfg, a: seq<Type>, n: nat, ht: seq<Type>)
    requires Alike(t, c, d, a, ht) && n <= |a|
    ensures Alike(t, c.(stack := Drop(c.stack, n)), d.(stack := Drop(d.stack, n)), a[..|a| - n], ht)
    ensures forall j :: |a| - n <= j < |a| ==> Tagged(c.stack[j], d.stack[j], a[j])
  {
    hide SlotsTagged, StoreTagged, Tagged;
  }

  /** Two machines at the same instruction, in states that stand for each other. */
  ghost predicate AtOnce(t: Typed, i: Instr, c: Cfg, d: Cfg, a: seq<Type>, b: seq<Type>, ht: seq<Type>) {
    && c.fn < |t.fts| && Moves(true, t, c.fn, i, a, b) && |b| <= STACK_MAX
    && Fits(true, t, c, a, ht) && Alike(t, c, d, a, ht)
  }

  lemma PushersAlike(fp: Float, t: Typed, i: Instr, c: Cfg, d: Cfg, a: seq<Type>, b: seq<Type>, ht: seq<Type>)
    requires AtOnce(t, i, c, d, a, b, ht) && (i.OpPushC? || i.OpPushI? || i.OpLoadL?)
    ensures AlikeActs(t, Perform(fp, t.image.consts, i, c), TypedPerform(fp, t.image.consts, i, a, b, d), b, ht)
  {
    hide StoreTagged, StoreOk, HaveTypes;
    assert a[..|a|] == a;
    assert b == a + [b[|a|]];
    var ty := b[|a|];
    match i
    case OpPushC(k) =>
      var v := ConstVal(t.image.consts[k]);
      PushAlike(t, c, d, v, v, a, ty, ht);
    case OpPushI(v) => PushAlike(t, c, d, VInt(v), if ty.TDouble? then VDbl(0) else VInt(v), a, ty, ht);
    case OpLoadL(slot) => PushAlike(t, c, d, c.locals[slot], d.locals[slot], a, ty, ht);
  }

  lemma ConvertersAlike(fp: Float, t: Typed, i: Instr, c: Cfg, d: Cfg, a: seq<Type>, b: seq<Type>, ht: seq<Type>)
    requires AtOnce(t, i, c, d, a, b, ht) && (i.OpI2D? || i.OpD2I?)
    ensures AlikeActs(t, Perform(fp, t.image.consts, i, c), TypedPerform(fp, t.image.consts, i, a, b, d), b, ht)
  {
    hide StoreTagged, StoreOk, LocalsOk, SlotsTagged, HaveTypes;
    DropAlike(t, c, d, a, 1, ht);
    Operands(true, t, c, a, 1, ht);
    var n := |a| - 1;
    assert b == a[..n] + [b[n]];
    var v, w := c.stack[n], d.stack[n];
    if i.OpI2D? {
      PushAlike(t, c.(stack := Drop(c.stack, 1)), d.(stack := Drop(d.stack, 1)), IntToDouble(fp, v), IntToDouble(fp, w),
                a[..n], b[n], ht);
    } else {
      PushAlike(t, c.(stack := Drop(c.stack, 1)), d.(stack := Drop(d.stack, 1)), DoubleToInt(fp, v), DoubleToInt(fp, w),
                a[..n], b[n], ht);
    }
  }

  /** Negation keeps step unless it meets a zeroed double. */
  lemma NegAlike(fp: Float, t: Typed, i: Instr, c: Cfg, d: Cfg, a: seq<Type>, b: seq<Type>, ht: seq<Type>)
    requires AtOnce(t, i, c, d, a, b, ht) && i.OpNeg? && fp.neg(0) != 0
    ensures AlikeActs(t, Perform(fp, t.image.consts, i, c), TypedPerform(fp, t.image.consts, i, a, b, d), b, ht)
            <==> !(Top(a).TDouble? && c.stack[|a| - 1] == ZERO)
    ensures Top(a).TDouble? && c.stack[|a| - 1] == ZERO ==>
              Apart(Perform(fp, t.image.consts, i, c), TypedPerform(fp, t.image.consts, i, a, b, d), b)
  {
    hide StoreTagged, StoreOk, LocalsOk, SlotsTagged, HaveTypes;
    DropAlike(t, c, d, a, 1, ht);
    Operands(true, t, c, a, 1, ht);
    var n := |a| - 1;
    assert b == a[..n] + [b[n]];
    var v, w := c.stack[n], d.stack[n];
    var v1 := Negate(fp, v);
    var w1 := if a[n].TDouble? then VDbl(fp.neg(RawDouble(fp, w))) else Negate(fp, w);
    var c1, d1 := c.(stack := Drop(c.stack, 1)), d.(stack := Drop(d.stack, 1));
    assert Perform(fp, t.image.consts, i, c) == Push(c1, v1);
    assert TypedPerform(fp, t.image.consts, i, a, b, d) == Push(d1, w1);
    if a[n].TDouble? && v == ZERO {
      assert Push(c1, v1).c.stack[n] == ZERO && Push(d1, w1).c.stack[n] == VDbl(fp.neg(0));
      assert !Tagged(ZERO, VDbl(fp.neg(0)), b[n]);
    } else {
      PushAlike(t, c1, d1, v1, w1, a[..n], b[n], ht);
    }
  }

  /** The value and the outcome of one operation, by tag and by type. */
  lemma BinopTagged(fp: Float, op: Op, x: Val, y: Val, x1: Val, y1: Val, ty: Type, s: Store, z: Store)
    requires ZeroArithmetic(fp) && !IsArray(ty) && HasType(x, ty, []) && HasType(y, ty, [])
    requires Tagged(x, x1, ty) && Tagged(y, y1, ty)
    ensures var r := DoBinop(fp, op, x, y, s);
            var q := if ty.TDouble? then PureBinop(fp, op, RawDouble(fp, x1), RawDouble(fp, y1), z)
                     else DoBinop(fp, op, x1, y1, z);
            if ty.TDouble? && op.Div? && x == ZERO && y == ZERO then r.Trap? && q.Ok?
            else if r.Ok? then
              q.Ok? && Tagged(r.val, q.val, if IsComparison(op) then TInt else ty) && r.store == s && q.store == z
            else r == Trap(DivisionByZero, s.out) && q == Trap(DivisionByZero, z.out)
  {
    if ty.TDouble? { TagArithmeticIsTypeArithmetic(fp, op, x, y, s); }
  }

  /** Arithmetic keeps step unless a zeroed double is divided by a zeroed double. */
  lemma BinAlike(fp: Float, t: Typed, i: Instr, c: Cfg, d: Cfg, a: seq<Type>, b: seq<Type>, ht: seq<Type>)
    requires AtOnce(t, i, c, d, a, b, ht) && i.OpBin? && ZeroArithmetic(fp)
    ensures AlikeActs(t, Perform(fp, t.image.consts, i, c), TypedPerform(fp, t.image.consts, i, a, b, d), b, ht)
            <==> !(Top(a).TDouble? && i.op.Div? && c.stack[|a| - 1] == ZERO && c.stack[|a| - 2] == ZERO)
    ensures Top(a).TDouble? && i.op.Div? && c.stack[|a| - 1] == ZERO && c.stack[|a| - 2] == ZERO ==>
              Apart(Perform(fp, t.image.consts, i, c), TypedPerform(fp, t.image.consts, i, a, b, d), b)
  {
    hide StoreOk, LocalsOk, SlotsTagged, HaveTypes, DoBinop, PureBinop;
    DropAlike(t, c, d, a, 2, ht);
    Operands(true, t, c, a, 2, ht);
    var n := |a| - 2;
    assert b == a[..n] + [b[n]];
    var x, y, x1, y1 := c.stack[n], c.stack[n + 1], d.stack[n], d.stack[n + 1];
    BinopTagged(fp, i.op, x, y, x1, y1, a[n], c.s, d.s);
    var r := DoBinop(fp, i.op, x, y, c.s);
    var q := if a[n].TDouble? then PureBinop(fp, i.op, RawDouble(fp, x1), RawDouble(fp, y1), d.s)
             else DoBinop(fp, i.op, x1, y1, d.s);
    var c1, d1 := c.(stack := Drop(c.stack, 2)), d.(stack := Drop(d.stack, 2));
    assert Perform(fp, t.image.consts, i, c) == PushResult(c1, r);
    assert TypedPerform(fp, t.image.consts, i, a, b, d) == PushResult(d1, q);
    if r.Ok? { PushAlike(t, c1, d1, r.val, q.val, a[..n], b[n], ht); }
  }

  lemma ArrayTagged(fp: Float, len: Val, elem: Type, s: Store, z: Store, ht: seq<Type>)
    requires StoreTagged(s, z, ht)
    ensures var r, q := NewArray(fp, len, s), NewTypedArray(fp, len, elem, z);
            if r.Ok? then q.Ok? && r.val == q.val && StoreTagged(r.store, q.store, ht + [elem])
            else r == Trap(NegativeLength, s.out) && q == Trap(NegativeLength, z.out)
  {
    hide SameTexts;
    var r, q := NewArray(fp, len, s), NewTypedArray(fp, len, elem, z);
    if r.Ok? {
      var h1 := ht + [elem];
      forall k | 0 <= k < |h1|
        ensures |r.store.heap[k]| == |q.store.heap[k]|
        ensures forall i :: 0 <= i < |r.store.heap[k]| ==> Tagged(r.store.heap[k][i], q.store.heap[k][i], h1[k])
      {
        if k < |ht| { assert r.store.heap[k] == s.heap[k] && q.store.heap[k] == z.heap[k]; }
      }
    }
  }

  lemma NewArrAlike(fp: Float, t: Typed, i: Instr, c: Cfg, d: Cfg, a: seq<Type>, b: seq<Type>, ht: seq<Type>)
    requires AtOnce(t, i, c, d, a, b, ht) && i.OpNewArr?
    ensures AlikeActs(t, Perform(fp, t.image.consts, i, c), TypedPerform(fp, t.image.consts, i, a, b, d), b,
                      HeapTypes(i, b, ht))
  {
    hide StoreOk, LocalsOk, SlotsTagged, HaveTypes, StoreTagged, NewArray, NewTypedArray;
    DropAlike(t, c, d, a, 1, ht);
    Operands(true, t, c, a, 1, ht);
    var n := |a| - 1;
    assert b == a[..n] + [b[n]];
    AlikeStores(t, c, d, a, ht);
    ArrayTagged(fp, c.stack[n], Elem(b[n]), c.s, d.s, ht);
    var r, q := NewArray(fp, c.stack[n], c.s), NewTypedArray(fp, c.stack[n], Elem(b[n]), d.s);
    if r.Ok? {
      assert r.val == VRef(|c.s.heap|) by { NewArrayIsRef(fp, c.stack[n], c.s); }
      PushAlike(t, c.(stack := Drop(c.stack, 1), s := r.store), d.(stack := Drop(d.stack, 1), s := q.store), r.val,
                q.val, a[..n], b[n], ht + [Elem(b[n])]);
    }
  }

  lemma NewArrayIsRef(fp: Float, len: Val, s: Store)
    ensures var r := NewArray(fp, len, s); r.Ok? ==> r.val == VRef(|s.heap|)
  {
  }

  lemma AlikeStores(t: Typed, c: Cfg, d: Cfg, a: seq<Type>, ht: seq<Type>)
    requires Alike(t, c, d, a, ht)
    ensures StoreTagged(c.s, d.s, ht) && SameTexts(c.s.out, d.s.out)
  {
  }

  lemma LoadTagged(fp: Float, ref: Val, idx: Val, s: Store, z: Store, ty: Type, ht: seq<Type>)
    requires StoreOk(s, ht) && StoreTagged(s, z, ht) && IsArray(ty) && HasType(ref, ty, ht)
    ensures var r, q := Load(fp, ref, idx, s), Load(fp, ref, idx, z);
            if r.Ok? then q.Ok? && Tagged(r.val, q.val, Elem(ty)) && r.store == s && q.store == z
            else r.Trap? && q.Trap? && r.msg == q.msg && r.out == s.out && q.out == z.out
  {
  }

  lemma LoadAlike(fp: Float, t: Typed, i: Instr, c: Cfg, d: Cfg, a: seq<Type>, b: seq<Type>, ht: seq<Type>)
    requires AtOnce(t, i, c, d, a, b, ht) && i.OpALoad?
    ensures AlikeActs(t, Perform(fp, t.image.consts, i, c), TypedPerform(fp, t.image.consts, i, a, b, d), b, ht)
  {
    hide StoreOk, LocalsOk, SlotsTagged, HaveTypes, StoreTagged, Load;
    DropAlike(t, c, d, a, 2, ht);
    Operands(true, t, c, a, 2, ht);
    var n := |a| - 2;
    assert b == a[..n] + [b[n]];
    AlikeStores(t, c, d, a, ht);
    LoadTagged(fp, c.stack[n], c.stack[n + 1], c.s, d.s, a[n], ht);
    var r, q := Load(fp, c.stack[n], c.stack[n + 1], c.s), Load(fp, c.stack[n], c.stack[n + 1], d.s);
    if r.Ok? {
      PushAlike(t, c.(stack := Drop(c.stack, 2)), d.(stack := Drop(d.stack, 2)), r.val, q.val, a[..n], b[n], ht);
    }
  }

  lemma SaveTagged(fp: Float, ref: Val, idx: Val, v: Val, w: Val, s: Store, z: Store, ty: Type, ht: seq<Type>)
    requires StoreOk(s, ht) && StoreTagged(s, z, ht) && IsArray(ty) && HasType(ref, ty, ht) && Tagged(v, w, Elem(ty))
    ensures var r, q := Save(fp, ref, idx, v, s), Save(fp, ref, idx, w, z);
            if r.Ok? then q.Ok? && StoreTagged(r.store, q.store, ht)
            else r.Trap? && q.Trap? && r.msg == q.msg && r.out == s.out && q.out == z.out
  {
    hide SameTexts;
    var r, q := Save(fp, ref, idx, v, s), Save(fp, ref, idx, w, z);
    if r.Ok? {
      forall k | 0 <= k < |ht|
        ensures |r.store.heap[k]| == |q.store.heap[k]|
        ensures forall j :: 0 <= j < |r.store.heap[k]| ==> Tagged(r.store.heap[k][j], q.store.heap[k][j], ht[k])
      {
        if k != ref.r { assert r.store.heap[k] == s.heap[k] && q.store.heap[k] == z.heap[k]; }
      }
    }
  }

  lemma SaveAlike(fp: Float, t: Typed, i: Instr, c: Cfg, d: Cfg, a: seq<Type>, b: seq<Type>, ht: seq<Type>)
    requires AtOnce(t, i, c, d, a, b, ht) && i.OpAStore?
    ensures AlikeActs(t, Perform(fp, t.image.consts, i, c), TypedPerform(fp, t.image.consts, i, a, b, d), b, ht)
  {
    hide StoreOk, LocalsOk, SlotsTagged, HaveTypes, StoreTagged, Save;
    DropAlike(t, c, d, a, 3, ht);
    Operands(true, t, c, a, 3, ht);
    var n := |a| - 3;
    assert b == a[..n];
    AlikeStores(t, c, d, a, ht);
    SaveTagged(fp, c.stack[n], c.stack[n + 1], c.stack[n + 2], d.stack[n + 2], c.s, d.s, a[n], ht);
  }

  lemma StoreLocalAlike(fp: Float, t: Typed, i: Instr, c: Cfg, d: Cfg, a: seq<Type>, b: seq<Type>, ht: seq<Type>)
    requires AtOnce(t, i, c, d, a, b, ht) && i.OpStoreL?
    ensures AlikeActs(t, Perform(fp, t.image.consts, i, c), TypedPerform(fp, t.image.consts, i, a, b, d), b, ht)
  {
    hide StoreOk, HaveTypes, StoreTagged;
    DropAlike(t, c, d, a, 1, ht);
    Operands(true, t, c, a, 1, ht);
    assert b == a[..|a| - 1];
  }

  lemma PrintAlike(fp: Float, t: Typed, i: Instr, c: Cfg, d: Cfg, a: seq<Type>, b: seq<Type>, ht: seq<Type>)
    requires AtOnce(t, i, c, d, a, b, ht) && i.OpPrint?
    ensures AlikeActs(t, Perform(fp, t.image.consts, i, c), TypedPerform(fp, t.image.consts, i, a, b, d), b, ht)
  {
    hide StoreOk, HaveTypes, LocalsOk, SlotsTagged;
    DropAlike(t, c, d, a, 1, ht);
    Operands(true, t, c, a, 1, ht);
    var n := |a| - 1;
    assert b == a[..n];
    assert SameText(Show(fp, c.stack[n]), Show(fp, d.stack[n]));
  }

  lemma PopAlike(fp: Float, t: Typed, i: Instr, c: Cfg, d: Cfg, a: seq<Type>, b: seq<Type>, ht: seq<Type>)
    requires AtOnce(t, i, c, d, a, b, ht) && i.OpPop?
    ensures AlikeActs(t, Perform(fp, t.image.consts, i, c), TypedPerform(fp, t.image.consts, i, a, b, d), b, ht)
  {
    hide StoreOk, HaveTypes, LocalsOk, SlotsTagged, StoreTagged;
    DropAlike(t, c, d, a, 1, ht);
    Operands(true, t, c, a, 1, ht);
    assert b == a[..|a| - 1];
  }
}
