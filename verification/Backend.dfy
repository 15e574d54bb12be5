/** From resolved tree to the behaviour of the file on the machine. */
module Backend {
  import opened Values
  import opened Bytes
  import opened Ast
  import opened Source
  import opened Driver
  import opened Machine
  import opened Compile
  import opened Preservation
  import opened Encode
  import opened ModuleFile

  const EMPTY: Store := Store([], [])

  /** What a program means: calling `main` without arguments. */
  function RunMain(fp: Float, prog: Program, fuel: nat): Res<Val> {
    var entry := EntryOf(prog, |prog|);
    if entry < 0 then Trap(NoMain, []) else Invoke(fp, prog, fuel, entry, [], EMPTY)
  }

  function Outcome(r: Res<Fin>): Res<Val> {
    if r.Ok? then Ok(r.val.v, r.store) else r.PropagateFailure()
  }

  /** `svm` on a file, for at most `k` instructions. */
  function RunFile(fp: Float, buf: seq<Byte>, k: nat): Res<Val> {
    match LoadBytes(buf)
    case Die(m) => Trap(m, [])
    case Overrun => Wrong
    case Rd(p, _) => RunProg(fp, p, k)
  }

  function RunProg(fp: Float, p: Prog, k: nat): Res<Val> {
    if p.entry >= |p.funcs| then Trap(NoMain, []) else Outcome(Run(VmB(fp, p), k, p.entry, [], EMPTY))
  }

  function Meaning(fp: Float, prog: Program): nat -> Res<Val> {
    (fuel: nat) => RunMain(fp, prog, fuel)
  }

  function FileRun(fp: Float, buf: seq<Byte>): nat -> Res<Val> {
    (k: nat) => RunFile(fp, buf, k)
  }

  /** The machine ends exactly when the program does, and with the same value, error and output. */
  ghost predicate SameBehaviour(source: nat -> Res<Val>, machine: nat -> Res<Val>) {
    && (forall k: nat :: !machine(k).Timeout? ==> source(k) == machine(k))
    && (forall fuel: nat :: !source(fuel).Timeout? ==> exists n: nat :: Settles(machine, n, source(fuel)))
  }

  ghost predicate Settles(machine: nat -> Res<Val>, n: nat, r: Res<Val>) {
    forall k: nat :: k >= n ==> machine(k) == r
  }

  // ----- jump targets of generated code -----

  predicate JumpsBelow(code: seq<Instr>, n: nat) {
    forall i :: i in code ==> InRange(i, n)
  }

  lemma {:induction false} NoJumpsInE(fp: Float, e: Expr, pool: Pool)
    ensures JumpsBelow(GenE(fp, e, pool).code, 0)
    decreases e, 1
  {
    match e
    case Index(a, i) =>
      NoJumpsInE(fp, a, pool);
      NoJumpsInE(fp, i, GenE(fp, a, pool).pool);
    case Bin(_, a, b, _) =>
      NoJumpsInE(fp, a, pool);
      NoJumpsInE(fp, b, GenE(fp, a, pool).pool);
    case I2D(a) => NoJumpsInE(fp, a, pool);
    case D2I(a) => NoJumpsInE(fp, a, pool);
    case Neg(a) => NoJumpsInE(fp, a, pool);
    case Call(_, args, _) => NoJumpsInArgs(fp, args, pool);
    case _ =>
  }

  lemma {:induction false} NoJumpsInArgs(fp: Float, es: seq<Expr>, pool: Pool)
    ensures JumpsBelow(GenArgs(fp, es, pool).code, 0)
    decreases es, 0
  {
    if es != [] {
      NoJumpsInE(fp, es[0], pool);
      NoJumpsInArgs(fp, es[1..], GenE(fp, es[0], pool).pool);
    }
  }

  /** A statement only jumps inside itself or to the instruction after it. */
  lemma {:induction false} JumpsStayInside(fp: Float, st: Stmt, pc: nat, pool: Pool)
    ensures var g := GenS(fp, st, pc, pool); JumpsBelow(g.code, pc + |g.code| + 1)
    decreases st, 1
  {
    hide Compile.GenE;
    match st
    case Block(body) => JumpsStayInsideSeq(fp, body, pc, pool);
    case If(c, thn, els) => JumpsStayInsideIf(fp, st, pc, pool);
    case While(c, body) =>
      NoJumpsInE(fp, c, pool);
      var g := GenE(fp, c, pool);
      JumpsStayInside(fp, body, pc + |g.code| + 1, g.pool);
    case _ => NoJumpsInSimple(fp, st, pc, pool);
  }

  lemma {:induction false} JumpsStayInsideIf(fp: Float, st: Stmt, pc: nat, pool: Pool)
    requires st.If?
    ensures var g := GenS(fp, st, pc, pool); JumpsBelow(g.code, pc + |g.code| + 1)
    decreases st, 0
  {
    hide Compile.GenE, JumpsBelow;
    NoJumpsInE(fp, st.cond, pool);
    var g := GenE(fp, st.cond, pool);
    var t := GenS(fp, st.thn, pc + |g.code| + 1, g.pool);
    JumpsStayInside(fp, st.thn, pc + |g.code| + 1, g.pool);
    var other := pc + |g.code| + 1 + |t.code| + 1;
    if st.els.Some? {
      var e := GenS(fp, st.els.value, other, t.pool);
      JumpsStayInside(fp, st.els.value, other, t.pool);
      JumpsBelowIf(g.code, t.code, e.code, other, other + |e.code|);
    } else {
      JumpsBelowIfThen(g.code, t.code, other - 1);
    }
  }

  lemma JumpsBelowIf(g: seq<Instr>, t: seq<Instr>, e: seq<Instr>, other: nat, end: nat)
    requires JumpsBelow(g, 0) && JumpsBelow(t, other) && JumpsBelow(e, end + 1) && other <= end
    ensures JumpsBelow(g + [OpJz(other)] + t + [OpJmp(end)] + e, end + 1)
  {
  }

  lemma JumpsBelowIfThen(g: seq<Instr>, t: seq<Instr>, end: nat)
    requires JumpsBelow(g, 0) && JumpsBelow(t, end + 1)
    ensures JumpsBelow(g + [OpJz(end)] + t, end + 1)
  {
  }

  lemma NoJumpsInSimple(fp: Float, st: Stmt, pc: nat, pool: Pool)
    requires !st.Block? && !st.If? && !st.While?
    ensures JumpsBelow(GenS(fp, st, pc, pool).code, 0)
  {
    hide Compile.GenE;
    match st
    case DeclArray(_, _, len) => NoJumpsInE(fp, len, pool);
    case Decl(_, _, init) => if init.Some? { NoJumpsInE(fp, init.value, pool); }
    case Assign(_, e) => NoJumpsInE(fp, e, pool);
    case AssignIndex(a, i, e) =>
      NoJumpsInE(fp, a, pool);
      var g := GenE(fp, a, pool);
      NoJumpsInE(fp, i, g.pool);
      NoJumpsInE(fp, e, GenE(fp, i, g.pool).pool);
    case Return(value) => if value.Some? { NoJumpsInE(fp, value.value, pool); }
    case ExprStmt(e) => NoJumpsInE(fp, e, pool);
    case Print(e) => NoJumpsInE(fp, e, pool);
  }

  lemma {:induction false} JumpsStayInsideSeq(fp: Float, ss: seq<Stmt>, pc: nat, pool: Pool)
    ensures var g := GenSeq(fp, ss, pc, pool); JumpsBelow(g.code, pc + |g.code| + 1)
    decreases ss, 0
  {
    hide Compile.GenS;
    if ss != [] {
      JumpsStayInside(fp, ss[0], pc, pool);
      var g := GenS(fp, ss[0], pc, pool);
      JumpsStayInsideSeq(fp, ss[1..], pc + |g.code|, g.pool);
    }
  }

  /** Every jump of a generated module names an instruction of its function. */
  lemma GeneratedCodeIsClosed(fp: Float, prog: Program)
    ensures AllClosed(GenProgram(fp, prog).funcs)
  {
    hide Compile.GenS;
    forall f | 0 <= f < |prog| ensures Closed(GenProgram(fp, prog).funcs[f].code) {
      var pool := PoolBefore(fp, prog, f);
      JumpsStayInside(fp, prog[f].body, 0, pool);
      var code := GenFunc(fp, prog[f], pool).code;
      assert GenProgram(fp, prog).funcs[f].code == code;
      forall k | 0 <= k < |code| ensures InRange(code[k], |code|) {
        assert code[k] in code;
      }
    }
  }

  // ----- the main result of the back end -----

  /** The file written for a program. */
  function CompiledFile(fp: Float, prog: Program): seq<Byte> {
    GeneratedCodeIsClosed(fp, prog);
    EmitBytes(GenProgram(fp, prog))
  }

  /** What must hold of a program for its file to be faithful: literals compare as IEEE 754 says, operands
      fit the machine's stack, numbers fit the file's fields. */
  ghost predicate Compilable(fp: Float, prog: Program) {
    EqIsIdentityOnLiterals(fp) && FitsStack(prog) && Writable(GenProgram(fp, prog))
  }

  /** One call, on the source side and on the bytes. */
  lemma {:induction false} CallBehaves(fp: Float, prog: Program, p: Prog, f: nat, fuel: nat) returns (n: nat)
    requires Ready(fp, prog, GenProgram(fp, prog)) && Encodes(GenProgram(fp, prog), p) && f < |prog|
    ensures var r := Invoke(fp, prog, fuel, f, [], EMPTY);
            if r.Timeout? then forall k: nat :: k <= fuel ==> Run(VmB(fp, p), k, f, [], EMPTY).Timeout?
            else forall k: nat :: k >= n ==> Outcome(Run(VmB(fp, p), k, f, [], EMPTY)) == r
  {
    hide Encodes, Preservation.Ready, Source.Invoke, Compile.GenProgram;
    var image := GenProgram(fp, prog);
    n := SimCall(fp, prog, image, fuel, f, [], EMPTY);
    var c := VmOf(fp, image).start(f, [], EMPTY).value;
    SameStart(fp, image, p, f, [], EMPTY);
    forall k: nat ensures Run(VmB(fp, p), k, f, [], EMPTY) == Exec(VmOf(fp, image), k, c) {
      BytesRunLikeList(fp, image, p, k, c);
    }
  }

  /** Writing, loading and running the compiled module is running the program, for every program with a
      `main`.  Without one the machine is given function 0 as its entry, so it never reports the missing
      `main` unless there is no function at all. */
  lemma CompiledFileBehaves(fp: Float, prog: Program)
    requires Compilable(fp, prog)
    ensures SameBehaviour(Meaning(fp, prog), FileRun(fp, CompiledFile(fp, prog)))
            <==> (EntryOf(prog, |prog|) >= 0 || prog == [])
  {
    hide Compile.GenProgram, EmitBytes, LoadBytes, Encode.Encodes, Preservation.Ready, SameBehaviour;
    var image := GenProgram(fp, prog);
    ImageShape(fp, prog);
    LoadEmit(image);
    var buf := CompiledFile(fp, prog);
    if EntryOf(prog, |prog|) >= 0 {
      MainBehaves(fp, prog, LoadBytes(buf).v, buf);
    } else {
      NoMainBehaves(fp, prog, LoadBytes(buf).v, buf);
    }
  }

  lemma ImageShape(fp: Float, prog: Program)
    ensures var image := GenProgram(fp, prog);
            && AllClosed(image.funcs) && |image.funcs| == |prog| && image.entry == EntryOf(prog, |prog|)
            && (EqIsIdentityOnLiterals(fp) && FitsStack(prog) ==> Ready(fp, prog, image))
  {
    GeneratedCodeIsClosed(fp, prog);
  }

  lemma NoMainBehaves(fp: Float, prog: Program, p: Prog, buf: seq<Byte>)
    requires EntryOf(prog, |prog|) == -1 && p.entry == 0 && |p.funcs| == |prog|
    requires LoadBytes(buf).Rd? && LoadBytes(buf).v == p
    ensures SameBehaviour(Meaning(fp, prog), FileRun(fp, buf)) <==> prog == []
  {
    hide LoadBytes, Driver.Run;
    var source, machine := Meaning(fp, prog), FileRun(fp, buf);
    if prog == [] {
      assert Settles(machine, 0, Trap(NoMain, []));
    } else if SameBehaviour(source, machine) {
      assert source(0) == Trap(NoMain, []);
      var n: nat :| Settles(machine, n, source(0));
      assert machine(n) == Trap(NoMain, []);
      RunNeverReportsNoMain(fp, p, n, 0, [], EMPTY);
      assert false;
    }
  }

  lemma MainBehaves(fp: Float, prog: Program, p: Prog, buf: seq<Byte>)
    requires Ready(fp, prog, GenProgram(fp, prog)) && Encodes(GenProgram(fp, prog), p)
    requires EntryOf(prog, |prog|) >= 0 && p.entry == EntryOf(prog, |prog|)
    requires LoadBytes(buf).Rd? && LoadBytes(buf).v == p
    ensures SameBehaviour(Meaning(fp, prog), FileRun(fp, buf))
  {
    hide Encodes, Preservation.Ready, LoadBytes, Source.Invoke, Driver.Run, Compile.GenProgram;
    SameLength(fp, prog, p);
    forall k: nat | !RunFile(fp, buf, k).Timeout? ensures RunMain(fp, prog, k) == RunFile(fp, buf, k) {
      var n := CallBehaves(fp, prog, p, p.entry, k);
      RunMonotone(VmB(fp, p), k, n, p.entry, [], EMPTY);
    }
    forall fuel: nat | !RunMain(fp, prog, fuel).Timeout?
      ensures exists n: nat :: Settles(FileRun(fp, buf), n, RunMain(fp, prog, fuel))
    {
      var n := CallBehaves(fp, prog, p, p.entry, fuel);
      assert Settles(FileRun(fp, buf), n, RunMain(fp, prog, fuel));
    }
  }

  lemma SameLength(fp: Float, prog: Program, p: Prog)
    requires Encodes(GenProgram(fp, prog), p)
    ensures |p.funcs| == |prog|
  {
  }

  lemma RunMonotone(vm: Vm, k: nat, d: nat, f: nat, args: seq<Val>, s: Store)
    ensures var r := Run(vm, k, f, args, s);
            !r.Timeout? ==> Outcome(Run(vm, k + d, f, args, s)) == Outcome(r)
  {
    var c := vm.start(f, args, s);
    if c.Some? && !Exec(vm, k, c.value).Timeout? { ExecMonotone(vm, k, d, c.value); }
  }

  /** "no main function" is only reported before the run starts. */
  lemma {:induction false} RunNeverReportsNoMain(fp: Float, p: Prog, k: nat, f: nat, args: seq<Val>, s: Store)
    ensures var r := Run(VmB(fp, p), k, f, args, s); !(r.Trap? && r.msg.NoMain?)
    decreases k, 1
  {
    if f < |p.funcs| { ExecNeverReportsNoMain(fp, p, k, StartB(p, f, args, s).value); }
  }

  lemma {:induction false} ExecNeverReportsNoMain(fp: Float, p: Prog, k: nat, c: Cfg)
    ensures var r := Exec(VmB(fp, p), k, c); !(r.Trap? && r.msg.NoMain?)
    decreases k, 0
  {
    hide StepB;
    if k > 0 {
      StepNeverReportsNoMain(fp, p, c);
      match StepB(fp, p, c)
      case Go(c1) => ExecNeverReportsNoMain(fp, p, k - 1, c1);
      case Enter(f, args, c1) =>
        RunNeverReportsNoMain(fp, p, k - 1, f, args, c1.s);
        var r := Run(VmB(fp, p), k - 1, f, args, c1.s);
        if r.Ok? { ExecNeverReportsNoMain(fp, p, r.val.left, Resume(c1, r.val.v, r.store)); }
      case _ =>
    }
  }

  lemma StepNeverReportsNoMain(fp: Float, p: Prog, c: Cfg)
    ensures var a := StepB(fp, p, c); !(a.Fault? && a.r.Trap? && a.r.msg.NoMain?)
  {
    hide Fetch;
  }
}
