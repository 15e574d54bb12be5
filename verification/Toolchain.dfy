/** `svc` and `svm` end to end: from the text of a program to what running its file does. */
module Toolchain {
  import opened Values
  import opened Bytes
  import opened Ast
  import opened Source
  import opened Surface
  import opened Elab
  import opened Resolve
  import opened Syntax
  import opened Lexer
  import opened Frontend
  import opened Compile
  import opened Machine
  import opened Driver
  import opened Encode
  import opened ModuleFile
  import opened Backend
  import opened Codegen
  import opened Emit
  import opened Svm
  import opened Preservation
  import opened Typing
  import opened TypeSafety
  import opened StackTypes
  import opened ElabTypes

  /** The last function named `main`, or -1.  That names are cut to 63 characters makes no other name one of these. */
  function MainOf(p: SProgram, n: nat): (e: int)
    requires n <= |p|
    ensures -1 <= e < n
  {
    if n == 0 then -1 else if p[n - 1].name == "main" then n - 1 else MainOf(p, n - 1)
  }

  /** What a source program means: calling `main`, with named scopes. */
  function TextMeaning(fp: Float, p: SProgram): nat -> Res<Val> {
    (fuel: nat) =>
      var main := MainOf(p, |p|);
      if main < 0 then Trap(NoMain, []) else MeanCall(fp, p, fuel, main, [], EMPTY)
  }

  lemma {:induction false} SameMain(p: SProgram, prog: Program, n: nat)
    requires |p| == |prog| && n <= |p| && forall k :: 0 <= k < |p| ==> p[k].name == prog[k].name
    ensures MainOf(p, n) == EntryOf(prog, n)
  {
    if n > 0 { SameMain(p, prog, n - 1); }
  }

  lemma SameNames(p: SProgram, prog: Program)
    requires ElabProgram(p) == Done(prog)
    ensures |p| == |prog| && forall k :: 0 <= k < |p| ==> p[k].name == prog[k].name
  {
    hide ElabS, ElabParams;
  }

  /** Resolving names keeps the meaning of the whole program. */
  lemma ElaborationKeepsMeaning(fp: Float, p: SProgram, prog: Program, fuel: nat)
    requires Linked(p, prog)
    ensures TextMeaning(fp, p)(fuel) == Meaning(fp, prog)(fuel)
  {
    hide ElabProgram, Source.Invoke, MeanCall, LinkedOn;
    LinkedEverywhere(p, prog);
    SameNames(p, prog);
    SameMain(p, prog, |p|);
    var main := MainOf(p, |p|);
    if main >= 0 { ResolveInvoke(fp, p, prog, AllFunctions(p), fuel, main, [], EMPTY); }
  }

  /** Lexing, parsing, resolving, generating, encoding, loading and running is what the source program
      means, with its scopes, conversions, output, result and run-time errors, or its running forever. */
  lemma CompilerCorrect(fp: Float, p: SProgram, prog: Program)
    requires Linked(p, prog) && Compilable(fp, prog)
    ensures SameBehaviour(TextMeaning(fp, p), FileRun(fp, CompiledFile(fp, prog)))
            <==> (MainOf(p, |p|) >= 0 || p == [])
  {
    hide Linked, Compilable, CompiledFile, SameBehaviour, Meaning, TextMeaning, FileRun;
    CompiledFileBehaves(fp, prog);
    MainsAgree(p, prog);
    forall fuel: nat ensures TextMeaning(fp, p)(fuel) == Meaning(fp, prog)(fuel) {
      ElaborationKeepsMeaning(fp, p, prog, fuel);
    }
    SameBehaviourOfEqual(TextMeaning(fp, p), Meaning(fp, prog), FileRun(fp, CompiledFile(fp, prog)));
  }

  lemma MainsAgree(p: SProgram, prog: Program)
    requires Linked(p, prog)
    ensures MainOf(p, |p|) == EntryOf(prog, |prog|) && (p == [] <==> prog == [])
  {
    hide ElabProgram;
    SameNames(p, prog);
    SameMain(p, prog, |p|);
  }

  lemma SameBehaviourOfEqual(a: nat -> Res<Val>, b: nat -> Res<Val>, machine: nat -> Res<Val>)
    requires forall fuel: nat :: a(fuel) == b(fuel)
    ensures SameBehaviour(a, machine) <==> SameBehaviour(b, machine)
  {
    hide Settles;
  }

  /** Running the file of a program that does not mix arrays and scalars never reads a wrong member of a value,
      never leaves an array or the operand stack, and fails only with the run-time errors of the language. */
  lemma UnmixedFileIsSafe(fp: Float, p: SProgram, prog: Program, k: nat)
    requires ElabProgram(p) == Done(prog) && Unmixed(p, prog) && Compilable(fp, prog) && MainOf(p, |p|) >= 0
    ensures match RunFile(fp, CompiledFile(fp, prog), k)
            case Ok(v, _) => v.VInt? || v.VDbl?
            case Trap(m, _) => RuntimeError(m)
            case Wrong => false
            case Timeout => true
  {
    hide Unmixed, EmitBytes, LoadBytes, Encodes, ElabProgram, Compile.GenProgram, TypeSafety.Throughout,
         Preservation.Ready;
    var image := GenProgram(fp, prog);
    SameNames(p, prog);
    SameMain(p, prog, |p|);
    ImageShape(fp, prog);
    LoadEmit(image);
    var q := LoadBytes(CompiledFile(fp, prog)).v;
    SameLength(fp, prog, q);
    var f := q.entry;
    SameStart(fp, image, q, f, [], EMPTY);
    var c := VmOf(fp, image).start(f, [], EMPTY).value;
    BytesRunLikeList(fp, image, q, k, c);
    ConversionsAreSound(fp, p, prog, f, k);
  }

  /** `int name() { return 1; }`: what the theorems ask of a program can be met, with a `main` and without. */
  function Small(name: Name): SProgram { [SFunc(TInt, name, [], [SReturn(Some(SInt(1)))])] }

  function SmallCode(name: Name): Program { [Func(name, 0, 0, Block([Return(Some(IntLit(1)))]))] }

  lemma SmallIsAccepted(name: Name)
    ensures Linked(Small(name), SmallCode(name)) && Unmixed(Small(name), SmallCode(name))
  {
    var p, prog := Small(name), SmallCode(name);
    var sigs := SigsOf(p);
    var g: Scopes := [map[], map[]];
    var st, code := SReturn(Some(SInt(1))), Return(Some(IntLit(1)));
    var body := p[0].body;
    assert body == [st] && body[1..] == [];
    assert ElabS(sigs, Some(TInt), g, 0, st) == Done(Piece(code, g, 0));
    assert ElabSeq(sigs, Some(TInt), g, 0, []) == Done(Piece([], g, 0));
    assert [code] + [] == [code];
    assert ElabSeq(sigs, Some(TInt), g, 0, body) == Done(Piece([code], g, 0));
    assert [map[]] + [map[]] == g;
    assert ElabFunc(sigs, p[0]) == Done(prog[0]);
    assert p[1..] == [] && ElabFuncs(sigs, []) == Done([]);
    assert [prog[0]] + [] == prog;
    assert ElabFuncs(sigs, p) == Done(prog);
    assert [code][1..] == [];
  }

  /** A name that fits a module file. */
  predicate ShortName(name: Name) { |name| <= 63 && forall i :: 0 <= i < |name| ==> name[i] as int < 256 }

  lemma SmallIsCompilable(fp: Float, name: Name)
    requires EqIsIdentityOnLiterals(fp) && ShortName(name)
    ensures Compilable(fp, SmallCode(name))
  {
    var prog := SmallCode(name);
    var code, st := [OpPushI(1), OpRet, OpPushI(0), OpRet], Return(Some(IntLit(1)));
    assert [st][1..] == [];
    assert GenS(fp, st, 0, []) == Gen([OpPushI(1), OpRet], []);
    assert GenSeq(fp, [], 2, []) == Gen([], []);
    assert GenSeq(fp, [st], 0, []) == Gen([OpPushI(1), OpRet], []);
    assert GenFunc(fp, prog[0], []).code == code;
    assert PoolBefore(fp, prog, 0) == [];
    assert PoolBefore(fp, prog, 1) == [];
    assert GenProgram(fp, prog).funcs[0].code == code;
    GeneratedCodeIsClosed(fp, prog);
    SmallFits(fp, name, code);
  }

  lemma SmallFits(fp: Float, name: Name, code: seq<Instr>)
    requires ShortName(name) && AllClosed(GenProgram(fp, SmallCode(name)).funcs)
    requires code == [OpPushI(1), OpRet, OpPushI(0), OpRet]
    requires GenProgram(fp, SmallCode(name)) == Image([], [Routine(name, 0, 0, code)], EntryOf(SmallCode(name), 1))
    ensures FitsStack(SmallCode(name)) && Writable(GenProgram(fp, SmallCode(name)))
  {
    hide Compile.GenProgram;
    assert Off(code, 0) == 0;
    assert Off(code, 1) == 5;
    assert Off(code, 2) == 6;
    assert Off(code, 3) == 11;
    assert Off(code, 4) == 12;
  }

  /** `int f() { return 1; }` meets every condition but that on `main`: it has no meaning, and its file runs `f`. */
  lemma WithoutMainItDiffers(fp: Float)
    requires EqIsIdentityOnLiterals(fp)
    ensures Linked(Small("f"), SmallCode("f")) && Compilable(fp, SmallCode("f"))
    ensures !SameBehaviour(TextMeaning(fp, Small("f")), FileRun(fp, CompiledFile(fp, SmallCode("f"))))
  {
    hide Linked, Compilable, CompiledFile, SameBehaviour, TextMeaning, FileRun;
    SmallIsAccepted("f");
    SmallIsCompilable(fp, "f");
    CompilerCorrect(fp, Small("f"), SmallCode("f"));
    assert CutName("f") == "f";
  }

  /** `int main() { return 1; }` meets all of them. */
  lemma WithMainItIsTheSame(fp: Float)
    requires EqIsIdentityOnLiterals(fp)
    ensures Linked(Small("main"), SmallCode("main")) && Compilable(fp, SmallCode("main"))
    ensures SameBehaviour(TextMeaning(fp, Small("main")), FileRun(fp, CompiledFile(fp, SmallCode("main"))))
  {
    hide Linked, Compilable, CompiledFile, SameBehaviour, TextMeaning, FileRun;
    SmallIsAccepted("main");
    SmallIsCompilable(fp, "main");
    CompilerCorrect(fp, Small("main"), SmallCode("main"));
    assert CutName("main") == "main";
  }

  /** `svc`: the bytes of the module, or nothing when the parser reports an error. */
  method CompileText(fp: Float, strtod: string -> Lit, hash: Name -> nat, src: string) returns (r: Option<seq<Byte>>)
    ensures var p := ParseProgram(LexAll(strtod, src, 0));
            p.Failed? || ElabProgram(p.v).Rejected? ==> r == None
    ensures var p := ParseProgram(LexAll(strtod, src, 0));
            p.Parsed? && ElabProgram(p.v).Done? ==> r == Some(CompiledFile(fp, ElabProgram(p.v).v))
    ensures var p := ParseProgram(LexAll(strtod, src, 0));
            p.Parsed? && ElabProgram(p.v).Done? && ProgramDeclsInBlocks(p.v) && Compilable(fp, ElabProgram(p.v).v)
            ==> (SameBehaviour(TextMeaning(fp, p.v), FileRun(fp, r.value)) <==> (MainOf(p.v, |p.v|) >= 0 || p.v == []))
  {
    hide Compilable, SameBehaviour, TextMeaning, FileRun, ElabProgram, LexAll, ParseProgram, EmitBytes,
         Compile.GenProgram;
    var prog;
    ghost var dangled;
    prog, dangled := ParseText(strtod, hash, src);
    if prog.None? { return None; }
    var m := GenModule(fp, prog.value);
    GeneratedCodeIsClosed(fp, prog.value);
    var bytes := EmitModule(Image(m.consts, m.funcs, m.entry));
    ghost var p := ParseProgram(LexAll(strtod, src, 0));
    if ElabProgram(p.v).Done? && ProgramDeclsInBlocks(p.v) && Compilable(fp, prog.value) {
      CompilerCorrect(fp, p.v, prog.value);
    }
    r := Some(bytes);
  }

  /** `svm`, given at most `k` instructions. */
  method RunBytes(fp: Float, buf: seq<Byte>, k: nat) returns (r: Res<Val>)
    ensures r == RunFile(fp, buf, k)
  {
    hide LoadBytes, Driver.Run;
    var prog := LoadProg(buf);
    match prog
    case Die(m) => r := Trap(m, []);
    case Overrun => r := Wrong;
    case Rd(p, _) =>
      if p.entry >= |p.funcs| { return Trap(NoMain, []); }
      var vm := new Interpreter(fp, p);
      var fin := vm.RunFunc(p.entry, [], k);
      r := Outcome(fin);
  }
}
