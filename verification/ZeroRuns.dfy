/** Whole runs of the machine that chooses arithmetic by tag, next to runs that choose it by type: they stay in
    step exactly as long as no zeroed double is negated and none is divided by another. */
module ZeroRuns {
  import opened Values
  import opened Ast
  import opened Driver
  import opened Machine
  import opened Typing
  import opened TypeSafety
  import opened ZeroCells
  import opened TypedMachine

  /** What is used of IEEE 754: +0 with +0, and that negating +0 gives something else. */
  predicate Ieee(fp: Float) { ZeroArithmetic(fp) && fp.neg(0) != 0 }

  /** The next instruction negates a zeroed double, or divides one by another. */
  predicate Trouble(t: Typed, c: Cfg) {
    && c.fn < |t.image.funcs| && c.fn < |t.maps| && c.pc < |t.image.funcs[c.fn].code| && c.pc < |t.maps[c.fn]|
    && var i, n := t.image.funcs[c.fn].code[c.pc], |c.stack|;
    && Top(t.maps[c.fn][c.pc]).TDouble?
    && ((i.OpNeg? && n >= 1 && c.stack[n - 1] == ZERO)
        || (i == OpBin(Div) && n >= 2 && c.stack[n - 1] == ZERO && c.stack[n - 2] == ZERO))
  }

  /** The states stand for each other, under some element types of the arrays. */
  ghost predicate Together(t: Typed, c: Cfg, d: Cfg, ht: seq<Type>)
    requires Checked(true, t)
  {
    Good(true, t, c, ht) && Alike(t, c, d, t.maps[c.fn][c.pc], ht)
  }

  /** What one step of each leads to. */
  ghost predicate SameActs(t: Typed, f: nat, x: Act, y: Act, ht: seq<Type>)
    requires f < |t.maps| && f < |t.fts|
  {
    match (x, y)
    case (Go(c), Go(d)) => c.fn == f && c.pc < |t.maps[f]| && Alike(t, c, d, t.maps[f][c.pc], ht)
    case (Stop(v, s), Stop(w, z)) => Tagged(v, w, t.fts[f].ret) && StoreTagged(s, z, ht)
    case (Fault(r), Fault(q)) => SameFault(r, q)
    case (Enter(g, args, c), Enter(h, args1, d)) =>
      && g == h < |t.fts| && c.fn == f && c.pc < |t.maps[f]| && AllTagged(args, args1, t.fts[g].params)
      && var b := t.maps[f][c.pc];
      && b != [] && Alike(t, c, d, b[..|b| - 1], ht)
    case _ => false
  }

  ghost predicate PartedActs(t: Typed, f: nat, x: Act, y: Act)
    requires f < |t.maps|
  {
    || (x.Go? && y.Go? && x.c.fn == f && x.c.pc < |t.maps[f]| && !AllTagged(x.c.stack, y.c.stack, t.maps[f][x.c.pc]))
    || (x.Fault? && y.Go?)
  }

  // ----- one step -----

  lemma PlainTogether(fp: Float, t: Typed, i: Instr, c: Cfg, d: Cfg, a: seq<Type>, b: seq<Type>, ht: seq<Type>)
    requires AtOnce(t, i, c, d, a, b, ht) && Ieee(fp)
    requires !i.OpJmp? && !i.OpJz? && !i.OpCall? && !i.OpRet? && !i.OpRetV? && !i.OpHalt?
    ensures var x, y := Perform(fp, t.image.consts, i, c), TypedPerform(fp, t.image.consts, i, a, b, d);
            var n := |c.stack|;
            var bad := Top(a).TDouble?
              && ((i.OpNeg? && n >= 1 && c.stack[n - 1] == ZERO)
                  || (i == OpBin(Div) && n >= 2 && c.stack[n - 1] == ZERO && c.stack[n - 2] == ZERO));
            if bad then Apart(x, y, b) else AlikeActs(t, x, y, b, HeapTypes(i, b, ht))
  {
    hide AtOnce, Perform, TypedPerform, Apart, AlikeActs;
    EnoughOperands(t, i, c, d, a, b, ht);
    if i.OpPushC? || i.OpPushI? || i.OpLoadL? { PushersAlike(fp, t, i, c, d, a, b, ht); }
    else if i.OpI2D? || i.OpD2I? { ConvertersAlike(fp, t, i, c, d, a, b, ht); }
    else if i.OpNeg? { NegAlike(fp, t, i, c, d, a, b, ht); }
    else if i.OpBin? { BinAlike(fp, t, i, c, d, a, b, ht); }
    else if i.OpNewArr? { NewArrAlike(fp, t, i, c, d, a, b, ht); }
    else if i.OpALoad? { LoadAlike(fp, t, i, c, d, a, b, ht); }
    else if i.OpAStore? { SaveAlike(fp, t, i, c, d, a, b, ht); }
    else if i.OpStoreL? { StoreLocalAlike(fp, t, i, c, d, a, b, ht); }
    else if i.OpPrint? { PrintAlike(fp, t, i, c, d, a, b, ht); }
    else { PopAlike(fp, t, i, c, d, a, b, ht); }
  }

  lemma EnoughOperands(t: Typed, i: Instr, c: Cfg, d: Cfg, a: seq<Type>, b: seq<Type>, ht: seq<Type>)
    requires AtOnce(t, i, c, d, a, b, ht)
    ensures |c.stack| == |a| && Pops(i) <= |a|
  {
  }

  lemma StepTogether(fp: Float, t: Typed, c: Cfg, d: Cfg, ht: seq<Type>)
    requires Checked(true, t) && Together(t, c, d, ht) && Ieee(fp)
    ensures var x, y := Step(fp, t.image, c), TypedStep(fp, t, d);
            if Trouble(t, c) then PartedActs(t, c.fn, x, y) else SameActs(t, c.fn, x, y, NextHeapTypes(t, c, ht))
  {
    var i := t.image.funcs[c.fn].code[c.pc];
    var map0 := t.maps[c.fn];
    assert FlowOk(true, t, c.fn, t.image.funcs[c.fn].code, map0, c.pc);
    if i.OpJmp? || i.OpJz? {
      JumpTogether(fp, t, c, d, ht);
    } else if i.OpRet? {
      RetTogether(fp, t, c, d, ht);
    } else if i.OpCall? {
      CallTogether(fp, t, c, d, ht);
    } else {
      OtherTogether(fp, t, c, d, ht);
    }
  }

  lemma OtherTogether(fp: Float, t: Typed, c: Cfg, d: Cfg, ht: seq<Type>)
    requires Checked(true, t) && Together(t, c, d, ht) && Ieee(fp)
    requires var i := t.image.funcs[c.fn].code[c.pc]; !i.OpJmp? && !i.OpJz? && !i.OpCall? && !i.OpRet?
    ensures var x, y := Step(fp, t.image, c), TypedStep(fp, t, d);
            if Trouble(t, c) then PartedActs(t, c.fn, x, y) else SameActs(t, c.fn, x, y, NextHeapTypes(t, c, ht))
  {
    hide Perform, TypedPerform, Fits, Moves, AllTagged, SlotsTagged, StoreTagged, Ieee;
    var i := t.image.funcs[c.fn].code[c.pc];
    var map0 := t.maps[c.fn];
    assert FlowOk(true, t, c.fn, t.image.funcs[c.fn].code, map0, c.pc);
    var c0, d0 := c.(pc := c.pc + 1), d.(pc := d.pc + 1);
    var a, b := map0[c.pc], map0[c.pc + 1];
    FitsAnywhere(true, t, c, c.pc + 1, a, ht);
    PlainTogether(fp, t, i, c0, d0, a, b, ht);
    var _ := PlainKept(fp, true, t, i, c0, a, b, ht);
    assert Step(fp, t.image, c) == Perform(fp, t.image.consts, i, c0);
    assert TypedStep(fp, t, d) == TypedPerform(fp, t.image.consts, i, a, b, d0);
  }

  lemma JumpTogether(fp: Float, t: Typed, c: Cfg, d: Cfg, ht: seq<Type>)
    requires Checked(true, t) && Together(t, c, d, ht)
    requires var i := t.image.funcs[c.fn].code[c.pc]; i.OpJmp? || i.OpJz?
    ensures !Trouble(t, c)
    ensures SameActs(t, c.fn, Step(fp, t.image, c), TypedStep(fp, t, d), NextHeapTypes(t, c, ht))
  {
    hide StoreOk, LocalsOk, HasType, SlotsTagged, StoreTagged;
    var map0 := t.maps[c.fn];
    var a := map0[c.pc];
    assert FlowOk(true, t, c.fn, t.image.funcs[c.fn].code, map0, c.pc);
    if t.image.funcs[c.fn].code[c.pc].OpJz? {
      Operands(true, t, c, a, 1, ht);
      DropAlike(t, c, d, a, 1, ht);
      assert map0[c.pc + 1] == a[..|a| - 1];
    }
  }

  lemma RetTogether(fp: Float, t: Typed, c: Cfg, d: Cfg, ht: seq<Type>)
    requires Checked(true, t) && Together(t, c, d, ht)
    requires t.image.funcs[c.fn].code[c.pc].OpRet?
    ensures !Trouble(t, c)
    ensures SameActs(t, c.fn, Step(fp, t.image, c), TypedStep(fp, t, d), NextHeapTypes(t, c, ht))
  {
    hide StoreOk, LocalsOk, HasType, SlotsTagged, StoreTagged;
    assert FlowOk(true, t, c.fn, t.image.funcs[c.fn].code, t.maps[c.fn], c.pc);
  }

  lemma CallTogether(fp: Float, t: Typed, c: Cfg, d: Cfg, ht: seq<Type>)
    requires Checked(true, t) && Together(t, c, d, ht)
    requires t.image.funcs[c.fn].code[c.pc].OpCall?
    ensures !Trouble(t, c)
    ensures SameActs(t, c.fn, Step(fp, t.image, c), TypedStep(fp, t, d), NextHeapTypes(t, c, ht))
  {
    hide StoreOk, LocalsOk, HasType, HaveTypes, SlotsTagged, StoreTagged, Tagged, Fits;
    var i := t.image.funcs[c.fn].code[c.pc];
    var map0 := t.maps[c.fn];
    assert FlowOk(true, t, c.fn, t.image.funcs[c.fn].code, map0, c.pc);
    var a, b := map0[c.pc], map0[c.pc + 1];
    assert |b| <= STACK_MAX;
    FitsHeight(t, c, a, ht);
    DropAlike(t, c, d, a, i.argc, ht);
    var n := |a| - i.argc;
    assert b == a[..n] + [b[n]];
    assert b[..|b| - 1] == a[..n];
    assert RoutineOk(true, t, i.f);
    assert AllTagged(c.stack[n..], d.stack[n..], a[n..]);
  }

  lemma FitsHeight(t: Typed, c: Cfg, a: seq<Type>, ht: seq<Type>)
    requires Fits(true, t, c, a, ht)
    ensures |c.stack| == |a|
  {
  }

  // ----- whole runs -----

  /** No zeroed double is negated, and none divided by another, in the next `k` steps, those of the functions
      called included. */
  ghost predicate Calm(fp: Float, t: Typed, k: nat, c: Cfg)
    decreases k
  {
    k == 0 ||
    (!Trouble(t, c) &&
     match Step(fp, t.image, c)
     case Go(c1) => Calm(fp, t, k - 1, c1)
     case Stop(_, _) => true
     case Fault(_) => true
     case Enter(g, args, c1) =>
       g < |t.image.funcs| ==>
         var c0 := Start(t.image, g, args, c1.s).value;
         var r := Exec(VmOf(fp, t.image), k - 1, c0);
         Calm(fp, t, k - 1, c0) && (r.Ok? ==> Calm(fp, t, r.val.left, Resume(c1, r.val.v, r.store))))
  }

  /** The two machines go through states that stand for each other for `k` steps, or end alike before. */
  ghost predicate InStep(fp: Float, t: Typed, k: nat, c: Cfg, d: Cfg)
    requires Checked(true, t)
    decreases k
  {
    (exists ht :: Together(t, c, d, ht)) &&
    (k == 0 ||
     match (Step(fp, t.image, c), TypedStep(fp, t, d))
     case (Go(c1), Go(d1)) => InStep(fp, t, k - 1, c1, d1)
     case (Stop(v, s), Stop(w, z)) => c.fn < |t.fts| && Tagged(v, w, t.fts[c.fn].ret) && SameTexts(s.out, z.out)
     case (Fault(r), Fault(q)) => SameFault(r, q)
     case (Enter(g, args, c1), Enter(h, args1, d1)) =>
       g == h < |t.image.funcs| &&
       (var c0, d0 := Start(t.image, g, args, c1.s).value, TypedStart(t, g, args1, d1.s).value;
        var r, q := Exec(VmOf(fp, t.image), k - 1, c0), Exec(TypedVm(fp, t), k - 1, d0);
        InStep(fp, t, k - 1, c0, d0)
        && (r.Ok? ==> q.Ok? && r.val.left == q.val.left
                      && InStep(fp, t, r.val.left, Resume(c1, r.val.v, r.store), Resume(d1, q.val.v, q.store))))
     case _ => false)
  }

  /** Two ends of runs of function `f` that a program cannot tell apart. */
  ghost predicate SameEnd(t: Typed, f: nat, r: Res<Fin>, q: Res<Fin>, ht: seq<Type>)
    requires f < |t.fts|
  {
    match (r, q)
    case (Ok(x, s), Ok(y, z)) =>
      && x.left == y.left && Tagged(x.v, y.v, t.fts[f].ret) && HasType(x.v, t.fts[f].ret, ht)
      && StoreTagged(s, z, ht) && StoreOk(s, ht)
    case (Trap(m, o), Trap(n, p)) => m == n && SameTexts(o, p)
    case (Timeout, Timeout) => true
    case _ => false
  }

  /** Both begin a call alike. */
  lemma StartTogether(t: Typed, f: nat, args: seq<Val>, args1: seq<Val>, s: Store, z: Store, ht: seq<Type>)
    requires Checked(true, t) && f < |t.image.funcs| && StoreOk(s, ht) && StoreTagged(s, z, ht)
    requires (args == [] && args1 == [])
             || (HaveTypes(args, t.fts[f].params, ht) && AllTagged(args, args1, t.fts[f].params))
    ensures Together(t, Start(t.image, f, args, s).value, TypedStart(t, f, args1, z).value, ht)
  {
    hide StoreOk, StoreTagged;
    assert RoutineOk(true, t, f);
    StartGood(true, t, f, args, s, ht);
    var slots := t.fts[f].slots;
    var n := t.image.funcs[f].nlocals;
    var l, l1 := Frame(n, args), TypedFrame(slots, n, args1);
    forall i | 0 <= i < |slots| ensures Tagged(l[i], l1[i], slots[i]) {
      if i < |args| { assert slots[i] == t.fts[f].params[i]; }
    }
  }

  /** Both go on alike after a call. */
  lemma ResumeTogether(t: Typed, c1: Cfg, d1: Cfg, v: Val, w: Val, s: Store, z: Store, ht: seq<Type>, ht1: seq<Type>)
    requires Checked(true, t) && c1.fn < |t.image.funcs| && RoutineOk(true, t, c1.fn) && c1.pc < |t.maps[c1.fn]|
    requires var b := t.maps[c1.fn][c1.pc];
             b != [] && Fits(true, t, c1, b[..|b| - 1], ht) && Alike(t, c1, d1, b[..|b| - 1], ht)
             && HasType(v, b[|b| - 1], ht1) && Tagged(v, w, b[|b| - 1])
    requires ht <= ht1 && StoreOk(s, ht1) && StoreTagged(s, z, ht1)
    ensures Together(t, Resume(c1, v, s), Resume(d1, w, z), ht1)
  {
    hide StoreOk, StoreTagged, LocalsOk, SlotsTagged, Fits;
    ResumeGood(true, t, c1, c1, v, s, ht, ht1);
    var b := t.maps[c1.fn][c1.pc];
    assert b == b[..|b| - 1] + [b[|b| - 1]];
  }

  /** The two machines stay in step exactly as long as no zeroed double is negated or divided by another; and as
      long as they do, they print the same, return the same and stop with the same error. */
  lemma {:induction false} InStepIffCalm(fp: Float, t: Typed, k: nat, c: Cfg, d: Cfg, ht: seq<Type>)
    returns (ht1: seq<Type>)
    requires Checked(true, t) && Together(t, c, d, ht) && Ieee(fp)
    ensures InStep(fp, t, k, c, d) <==> Calm(fp, t, k, c)
    ensures Calm(fp, t, k, c) ==>
              ht <= ht1 && SameEnd(t, c.fn, Exec(VmOf(fp, t.image), k, c), Exec(TypedVm(fp, t), k, d), ht1)
    decreases k, 1
  {
    hide Step, TypedStep, Checked, Good, Alike, StoreOk, StoreTagged, Trouble, Ieee, AllTagged, HasType, Tagged;
    ht1 := ht;
    if k > 0 {
      StepTogether(fp, t, c, d, ht);
      var htS := StepGood(fp, true, t, c, ht);
      Inside(t, c, d, ht);
      if !Step(fp, t.image, c).Go? && !Step(fp, t.image, c).Fault? { NoNewArray(fp, t, c, ht); }
      if Trouble(t, c) {
        PartedIsApart(fp, t, k, c, d);
      } else {
        match Step(fp, t.image, c)
        case Go(c1) => ht1 := InStepIffCalm(fp, t, k - 1, c1, TypedStep(fp, t, d).c, htS);
        case Stop(_, _) => EndTogether(fp, t, k, c, d, ht);
        case Fault(_) => FaultTogether(fp, t, k, c, d, htS);
        case Enter(_, _, _) => ht1 := CallIffCalm(fp, t, k, c, d, ht);
      }
    }
  }

  lemma Inside(t: Typed, c: Cfg, d: Cfg, ht: seq<Type>)
    requires Checked(true, t) && Together(t, c, d, ht)
    ensures c.fn < |t.fts| && c.fn < |t.maps| && c.fn < |t.image.funcs|
  {
  }

  lemma NoNewArray(fp: Float, t: Typed, c: Cfg, ht: seq<Type>)
    requires Step(fp, t.image, c).Stop? || Step(fp, t.image, c).Enter?
    ensures NextHeapTypes(t, c, ht) == ht
  {
  }

  lemma PartedIsApart(fp: Float, t: Typed, k: nat, c: Cfg, d: Cfg)
    requires Checked(true, t) && k > 0 && c.fn < |t.maps|
    requires PartedActs(t, c.fn, Step(fp, t.image, c), TypedStep(fp, t, d))
    ensures !InStep(fp, t, k, c, d)
  {
    hide Step, TypedStep, Checked, AllTagged, StoreTagged, SlotsTagged;
  }

  lemma EndTogether(fp: Float, t: Typed, k: nat, c: Cfg, d: Cfg, ht: seq<Type>)
    requires Checked(true, t) && Together(t, c, d, ht) && k > 0 && !Trouble(t, c)
    requires Step(fp, t.image, c).Stop?
    requires c.fn < |t.fts| && c.fn < |t.maps| && SameActs(t, c.fn, Step(fp, t.image, c), TypedStep(fp, t, d), ht)
    requires StepOk(true, t, c, Step(fp, t.image, c), ht, ht)
    ensures InStep(fp, t, k, c, d) && Calm(fp, t, k, c)
    ensures SameEnd(t, c.fn, Exec(VmOf(fp, t.image), k, c), Exec(TypedVm(fp, t), k, d), ht)
  {
    hide Step, TypedStep, Checked, Together, StoreOk, Trouble, HasType, Tagged;
    var x, y := Step(fp, t.image, c), TypedStep(fp, t, d);
    SameStores(x.s, y.s, ht);
  }

  lemma SameStores(s: Store, z: Store, ht: seq<Type>)
    requires StoreTagged(s, z, ht)
    ensures SameTexts(s.out, z.out)
  {
  }

  lemma FaultTogether(fp: Float, t: Typed, k: nat, c: Cfg, d: Cfg, ht: seq<Type>)
    requires Checked(true, t) && (exists h :: Together(t, c, d, h)) && k > 0 && !Trouble(t, c)
    requires Step(fp, t.image, c).Fault? && c.fn < |t.fts| && c.fn < |t.maps|
    requires SameActs(t, c.fn, Step(fp, t.image, c), TypedStep(fp, t, d), ht)
    ensures InStep(fp, t, k, c, d) && Calm(fp, t, k, c)
    ensures SameEnd(t, c.fn, Exec(VmOf(fp, t.image), k, c), Exec(TypedVm(fp, t), k, d), ht)
  {
    hide Step, TypedStep, Checked, Together, Trouble, SameTexts;
  }

  lemma {:induction false} CallIffCalm(fp: Float, t: Typed, k: nat, c: Cfg, d: Cfg,
                                       ht: seq<Type>) returns (ht1: seq<Type>)
    requires Checked(true, t) && Together(t, c, d, ht) && Ieee(fp) && k > 0 && !Trouble(t, c)
    requires Step(fp, t.image, c).Enter?
    requires c.fn < |t.fts| && c.fn < |t.maps| && SameActs(t, c.fn, Step(fp, t.image, c), TypedStep(fp, t, d), ht)
    requires StepOk(true, t, c, Step(fp, t.image, c), ht, ht)
    ensures InStep(fp, t, k, c, d) <==> Calm(fp, t, k, c)
    ensures Calm(fp, t, k, c) ==>
              ht <= ht1 && SameEnd(t, c.fn, Exec(VmOf(fp, t.image), k, c), Exec(TypedVm(fp, t), k, d), ht1)
    decreases k, 0
  {
    hide Step, TypedStep, Good, Alike, StoreOk, StoreTagged, Trouble, Ieee, AllTagged, HasType, HaveTypes, Tagged,
         Fits, Frame, TypedFrame;
    var x, y := Step(fp, t.image, c), TypedStep(fp, t, d);
    ht1 := ht;
    CallStores(t, c, x, y, ht);
    StartTogether(t, x.f, x.args, y.args, x.c.s, y.c.s, ht);
    var c0, d0 := Start(t.image, x.f, x.args, x.c.s).value, TypedStart(t, x.f, y.args, y.c.s).value;
    StartsIn(t, x.f, x.args, x.c.s);
    var htC := InStepIffCalm(fp, t, k - 1, c0, d0, ht);
    var r, q := Exec(VmOf(fp, t.image), k - 1, c0), Exec(TypedVm(fp, t), k - 1, d0);
    if Calm(fp, t, k - 1, c0) && r.Ok? {
      ResumeTogether(t, x.c, y.c, r.val.v, q.val.v, r.store, q.store, ht, htC);
      ht1 := InStepIffCalm(fp, t, r.val.left, Resume(x.c, r.val.v, r.store), Resume(y.c, q.val.v, q.store), htC);
    }
    CallExec(fp, t, k, c, d);
  }

  lemma StartsIn(t: Typed, f: nat, args: seq<Val>, s: Store)
    requires f < |t.image.funcs|
    ensures Start(t.image, f, args, s).value.fn == f
  {
  }

  /** What holds where a call is made. */
  lemma CallStores(t: Typed, c: Cfg, x: Act, y: Act, ht: seq<Type>)
    requires Checked(true, t) && Good(true, t, c, ht) && x.Enter? && c.fn < |t.fts|
    requires SameActs(t, c.fn, x, y, ht) && StepOk(true, t, c, x, ht, ht)
    ensures y.Enter? && y.f == x.f < |t.image.funcs| && x.c.fn < |t.image.funcs| && RoutineOk(true, t, x.c.fn)
    ensures StoreOk(x.c.s, ht) && StoreTagged(x.c.s, y.c.s, ht)
    ensures HaveTypes(x.args, t.fts[x.f].params, ht) && AllTagged(x.args, y.args, t.fts[x.f].params)
    ensures x.c.pc < |t.maps[x.c.fn]|
    ensures var b := t.maps[x.c.fn][x.c.pc];
            b != [] && Fits(true, t, x.c, b[..|b| - 1], ht) && Alike(t, x.c, y.c, b[..|b| - 1], ht)
            && b[|b| - 1] == t.fts[x.f].ret
  {
    hide StoreOk, StoreTagged, HaveTypes, AllTagged, LocalsOk, SlotsTagged;
  }

  /** A call unrolled, on both machines. */
  lemma CallExec(fp: Float, t: Typed, k: nat, c: Cfg, d: Cfg)
    requires k > 0 && Step(fp, t.image, c).Enter? && TypedStep(fp, t, d).Enter?
    requires Step(fp, t.image, c).f == TypedStep(fp, t, d).f < |t.image.funcs|
    ensures var x, y := Step(fp, t.image, c), TypedStep(fp, t, d);
            var c0, d0 := Start(t.image, x.f, x.args, x.c.s).value, TypedStart(t, x.f, y.args, y.c.s).value;
            var r, q := Exec(VmOf(fp, t.image), k - 1, c0), Exec(TypedVm(fp, t), k - 1, d0);
            && Exec(VmOf(fp, t.image), k, c) ==
               (if r.Ok? then Exec(VmOf(fp, t.image), r.val.left, Resume(x.c, r.val.v, r.store)) else r)
            && Exec(TypedVm(fp, t), k, d) ==
               (if q.Ok? then Exec(TypedVm(fp, t), q.val.left, Resume(y.c, q.val.v, q.store)) else q)
  {
    hide Step, TypedStep;
  }
}
