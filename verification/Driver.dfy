/** The run loop and the call mechanism of `run_func`, for any instruction set: the same driver runs
    instruction lists and encoded bytes. */
module Driver {
  import opened Values

  /** State of one activation of `run_func`, with the store it shares with all others. */
  datatype Cfg = Cfg(fn: nat, pc: nat, stack: seq<Val>, locals: seq<Val>, s: Store)

  /** Effect of one instruction. */
  datatype Act =
    | Go(c: Cfg)
    | Enter(f: nat, args: seq<Val>, c: Cfg)
    | Stop(v: Val, s: Store)
    | Fault(r: Res<Val>)

  /** `step` executes the instruction at the counter; `start` is the state a call begins in, if the
      function exists. */
  datatype Vm = Vm(step: Cfg -> Act, start: (nat, seq<Val>, Store) -> Option<Cfg>)

  /** The value a function returned, and the steps that were left. */
  datatype Fin = Fin(v: Val, left: nat)

  /** Runs for at most `k` instructions, counting those of the functions called. */
  function Exec(vm: Vm, k: nat, c: Cfg): (r: Res<Fin>)
    ensures r.Ok? ==> r.val.left <= k
    decreases k, 0
  {
    if k == 0 then Timeout
    else
      match vm.step(c)
      case Go(c1) => Exec(vm, k - 1, c1)
      case Stop(v, s) => Ok(Fin(v, k - 1), s)
      case Fault(r) => if r.Ok? then Wrong else r.PropagateFailure()
      case Enter(f, args, c1) =>
        var (fin, s1) :- Run(vm, k - 1, f, args, c1.s);
        Exec(vm, fin.left, Resume(c1, fin.v, s1))
  }

  /** `run_func`. */
  function Run(vm: Vm, k: nat, f: nat, args: seq<Val>, s: Store): (r: Res<Fin>)
    ensures r.Ok? ==> r.val.left <= k
    decreases k, 1
  {
    match vm.start(f, args, s)
    case None => Wrong
    case Some(c) => Exec(vm, k, c)
  }

  /** The caller's state once the callee has returned. */
  function Resume(c: Cfg, v: Val, s: Store): Cfg { c.(stack := c.stack + [v], s := s) }

  /** One instruction, then the rest. */
  lemma Unroll(vm: Vm, k: nat, c: Cfg)
    requires k > 0
    ensures Exec(vm, k, c) ==
            match vm.step(c)
            case Go(c1) => Exec(vm, k - 1, c1)
            case Stop(v, s) => Ok(Fin(v, k - 1), s)
            case Fault(r) => if r.Ok? then Wrong else r.PropagateFailure()
            case Enter(f, args, c1) =>
              var r := Run(vm, k - 1, f, args, c1.s);
              if r.Ok? then Exec(vm, r.val.left, Resume(c1, r.val.v, r.store)) else r
  {
  }

  /** A call runs from the callee's start state; out of fuel, nothing runs. */
  lemma Begin(vm: Vm, k: nat, f: nat, args: seq<Val>, s: Store)
    ensures var c := vm.start(f, args, s);
            Run(vm, k, f, args, s) == if c.Some? then Exec(vm, k, c.value) else Wrong
    ensures forall c :: Exec(vm, 0, c) == Timeout
  {
  }

  /** More steps never change an outcome; the extra ones are simply left over. */
  lemma {:induction false} ExecMonotone(vm: Vm, k: nat, d: nat, c: Cfg)
    requires !Exec(vm, k, c).Timeout?
    ensures var r := Exec(vm, k, c);
            Exec(vm, k + d, c) == if r.Ok? then Ok(Fin(r.val.v, r.val.left + d), r.store) else r
    decreases k
  {
    match vm.step(c)
    case Go(c1) => ExecMonotone(vm, k - 1, d, c1);
    case Stop(_, _) =>
    case Fault(_) =>
    case Enter(f, args, c1) =>
      var start := vm.start(f, args, c1.s);
      if start.Some? {
        ExecMonotone(vm, k - 1, d, start.value);
        var r := Run(vm, k - 1, f, args, c1.s);
        if r.Ok? { ExecMonotone(vm, r.val.left, d, Resume(c1, r.val.v, r.store)); }
      }
  }

  /** Where a stretch of a run leads. */
  datatype Goal =
    | At(c: Cfg)
    | Returns(v: Val, s: Store)
    | Fails(r: Res<Val>)
    | Spins(fuel: nat)

  /** After `n` steps from `c` the run has got to `g`.  `Spins(fuel)`: it is still going after
      `n + fuel` steps. */
  ghost predicate Leads(vm: Vm, c: Cfg, n: nat, g: Goal) {
    match g
    case At(c1) => forall k: nat :: k >= n ==> Exec(vm, k, c) == Exec(vm, k - n, c1)
    case Returns(v, s) => forall k: nat :: k >= n ==> Exec(vm, k, c) == Ok(Fin(v, k - n), s)
    case Fails(r) => !r.Ok? && !r.Timeout? && forall k: nat :: k >= n ==> Exec(vm, k, c) == r.PropagateFailure()
    case Spins(fuel) => forall k: nat :: k <= n + fuel ==> Exec(vm, k, c).Timeout?
  }

  lemma Chain(vm: Vm, c: Cfg, n: nat, c1: Cfg, n1: nat, g: Goal)
    requires Leads(vm, c, n, At(c1)) && Leads(vm, c1, n1, g)
    ensures Leads(vm, c, n + n1, g)
  {
    if g.Spins? {
      forall k: nat | k < n ensures Exec(vm, k, c).Timeout? {
        assert Exec(vm, n, c) == Exec(vm, 0, c1);
        if !Exec(vm, k, c).Timeout? { ExecMonotone(vm, k, n - k, c); }
      }
    }
  }

  lemma Stay(vm: Vm, c: Cfg)
    ensures Leads(vm, c, 0, At(c)) && Leads(vm, c, 0, Spins(0))
  {
  }

  /** A step taken counts as one more unit of fuel used up. */
  lemma SpinLonger(vm: Vm, c: Cfg, n: nat, fuel: nat)
    requires Leads(vm, c, n + 1, Spins(fuel))
    ensures Leads(vm, c, n, Spins(fuel + 1))
  {
  }

  lemma OneStep(vm: Vm, c: Cfg)
    ensures match vm.step(c)
            case Go(c1) => Leads(vm, c, 1, At(c1))
            case Stop(v, s) => Leads(vm, c, 1, Returns(v, s))
            case Fault(r) => !r.Ok? && !r.Timeout? ==> Leads(vm, c, 1, Fails(r))
            case Enter(_, _, _) => true
  {
  }

  /** A call: what the callee does from its start state decides what the caller does next. */
  lemma CallStep(vm: Vm, c: Cfg, n: nat, g: Goal)
    requires vm.step(c).Enter?
    requires var a := vm.step(c); vm.start(a.f, a.args, a.c.s).Some?
    requires var a := vm.step(c); Leads(vm, vm.start(a.f, a.args, a.c.s).value, n, g)
    requires !g.At?
    ensures Leads(vm, c, n + 1, if g.Returns? then At(Resume(vm.step(c).c, g.v, g.s)) else g)
  {
    var a := vm.step(c);
    var c0 := vm.start(a.f, a.args, a.c.s).value;
    forall k: nat | k >= 1
      ensures Exec(vm, k, c) ==
        (var r := Exec(vm, k - 1, c0);
         if r.Ok? then Exec(vm, r.val.left, Resume(a.c, r.val.v, r.store)) else r)
    {
    }
    if g.Returns? {
      forall k: nat | k < n + 1 ensures Exec(vm, k, c).Timeout? {
        if k > 0 && !Exec(vm, k - 1, c0).Timeout? { ExecMonotone(vm, k - 1, n - k + 1, c0); }
      }
    }
  }
}
