/** The conditions on bare declarations at two programs that have one. */
module BarePrograms {
  import opened Values
  import opened Ast
  import opened Source
  import opened Surface
  import opened Elab
  import opened Resolve
  import opened BareBranches
  import opened BareLoops
  import opened BareDecl

  /** Where `if (0) int x = 1;` stands in its program: behind the parameters, in the body's scope. */
  lemma LeakyEntered(l: seq<Val>)
    requires |l| == 1
    ensures Entered(LEAKY, LEAKY_CODE, {}, IF_STMT, TInt, [map[], map[]], [map[], map[]], 0, l)
  {
    BareDecl.Accepted();
    var g: Scopes := [map[], map[]];
    var g1: Scopes := [map[], map["x" := Binding(TInt, 0)]];
    assert SameScope(map[], map[], l);
    assert Bind(g, "x", Binding(TInt, 0)) == g1;
    assert ElabS(SigsOf(LEAKY), Some(TInt), g, 0, IF_STMT) == Done(Piece(IF_CODE, g1, 1));
  }

  /** The branch is skipped there, and named and resolved scopes part ways. */
  lemma LeakyPartsWays(fp: Float, fuel: nat, l: seq<Val>, s: Store)
    requires |l| == 1
    ensures ElabProgram(LEAKY) == Done(LEAKY_CODE) && IF_STMT in LEAKY[0].body
    ensures Entered(LEAKY, LEAKY_CODE, {}, IF_STMT, TInt, [map[], map[]], [map[], map[]], 0, l)
    ensures PartWays(fp, LEAKY, LEAKY_CODE, fuel, IF_STMT, TInt, [map[], map[]], [map[], map[]], 0, l, s)
  {
    hide ElabS, ElabProgram, PartWays, Surface.MeanE;
    LeakyEntered(l);
    Zero(fp, LEAKY, fuel, [map[], map[]], s);
    BareIfIff(fp, LEAKY, LEAKY_CODE, {}, fuel, IF_STMT, TInt, [map[], map[]], [map[], map[]], 0, l, s);
    assert LEAKY[0].body[0] == IF_STMT;
  }

  lemma Zero(fp: Float, p: SProgram, fuel: nat, env: Env, s: Store)
    ensures Fails(fp, MeanE(fp, p, fuel, SInt(0), env, s))
  {
  }

  // ----- a loop -----

  /** `int f(int n) { while (n) int x = 1; return x; }` */
  const LOOP: SStmt := SWhile(SVar("n"), SDecl(TInt, "x", Some(SInt(1))))
  const LOOPING: SProgram := [SFunc(TInt, "f", [Param(TInt, "n")], [LOOP, RETURN_X])]

  const LOOP_CODE: Stmt := While(Var(0, TInt), Decl(TInt, 1, Some(IntLit(1))))
  const RETURN_CODE_X: Stmt := Return(Some(Var(1, TInt)))
  const LOOPING_CODE: Program := [Func("f", 1, 2, Block([LOOP_CODE, RETURN_CODE_X]))]

  /** The scopes the loop is entered in, and the cells they stand for. */
  const SCOPES: Scopes := [map["n" := Binding(TInt, 0)], map[]]

  function Cells(n: int): Env { [map["n" := Cell(TInt, VInt(n))], map[]] }

  lemma LoopElaborates(sigs: seq<Sig>)
    ensures var g1 := [map["n" := Binding(TInt, 0)], map["x" := Binding(TInt, 1)]];
            && ElabS(sigs, Some(TInt), SCOPES, 1, LOOP) == Done(Piece(LOOP_CODE, g1, 2))
            && ElabS(sigs, Some(TInt), g1, 2, RETURN_X) == Done(Piece(RETURN_CODE_X, g1, 2))
  {
    var g1: Scopes := [map["n" := Binding(TInt, 0)], map["x" := Binding(TInt, 1)]];
    assert Bind(SCOPES, "x", Binding(TInt, 1)) == g1;
    assert ScopeOf(SCOPES, "n") == 0 && Lookup(SCOPES, "n") == Some(Binding(TInt, 0));
    assert ScopeOf(g1, "x") == 1 && Lookup(g1, "x") == Some(Binding(TInt, 1));
    assert ElabE(sigs, SCOPES, SVar("n")) == Done(Var(0, TInt));
    assert ElabS(sigs, Some(TInt), SCOPES, 1, LOOP.body1) == Done(Piece(LOOP_CODE.body1, g1, 2));
  }

  lemma LoopingAccepted()
    ensures ElabProgram(LOOPING) == Done(LOOPING_CODE)
  {
    hide ElabS;
    var sigs, f := SigsOf(LOOPING), LOOPING[0];
    var scope: map<Name, Binding> := map["n" := Binding(TInt, 0)];
    BodyElaborates(sigs);
    assert ElabParams(f.params, 0) == Done(map[]);
    assert ElabParams(f.params, 1) == Done(scope);
    assert ElabFunc(sigs, f) == Done(LOOPING_CODE[0]);
    assert LOOPING[1..] == [] && ElabFuncs(sigs, []) == Done([]);
    assert [LOOPING_CODE[0]] + [] == LOOPING_CODE;
    assert ElabFuncs(sigs, LOOPING) == Done(LOOPING_CODE);
  }

  lemma BodyElaborates(sigs: seq<Sig>)
    ensures ElabS(sigs, Some(TInt), [map["n" := Binding(TInt, 0)]], 1, SBlock(LOOPING[0].body))
            == Done(Piece(LOOPING_CODE[0].body, [map["n" := Binding(TInt, 0)]], 2))
  {
    LoopElaborates(sigs);
    var g1: Scopes := [map["n" := Binding(TInt, 0)], map["x" := Binding(TInt, 1)]];
    var body := LOOPING[0].body;
    assert [map["n" := Binding(TInt, 0)]] + [map[]] == SCOPES && g1[..1] == [map["n" := Binding(TInt, 0)]];
    assert body[1..] == [RETURN_X] && body[1..][1..] == [];
    assert ElabSeq(sigs, Some(TInt), g1, 2, []) == Done(Piece([], g1, 2));
    assert [RETURN_CODE_X] + [] == [RETURN_CODE_X] && [LOOP_CODE] + [RETURN_CODE_X] == [LOOP_CODE, RETURN_CODE_X];
    assert ElabSeq(sigs, Some(TInt), g1, 2, body[1..]) == Done(Piece([RETURN_CODE_X], g1, 2));
  }

  lemma LoopScopesAgree(n: int, l: seq<Val>)
    requires |l| == 2 && l[0] == VInt(n)
    ensures Agree(Cells(n), SCOPES, l) && Distinct(SCOPES, 1)
  {
    var env := Cells(n);
    assert SameScope(env[0], SCOPES[0], l) && SameScope(env[1], SCOPES[1], l);
  }

  lemma LoopEntered(n: int, l: seq<Val>)
    requires |l| == 2 && l[0] == VInt(n)
    ensures Entered(LOOPING, LOOPING_CODE, {}, LOOP, TInt, Cells(n), SCOPES, 1, l)
    ensures BareLoop(LOOPING, LOOPING_CODE, {}, LOOP, TInt, SCOPES, 1)
  {
    hide ElabProgram, ElabS, Agree, Distinct;
    LoopingAccepted();
    LoopElaborates(SigsOf(LOOPING));
    LoopScopesAgree(n, l);
    assert StmtCallsIn(SigsOf(LOOPING), {}, LOOP.body1);
  }

  /** In its own program, named and resolved scopes part ways at the loop exactly when it is entered with 0. */
  lemma LoopingPartsWaysIff(fp: Float, fuel: nat, n: int, l: seq<Val>, s: Store)
    requires |l| == 2 && l[0] == VInt(n)
    ensures ElabProgram(LOOPING) == Done(LOOPING_CODE) && LOOP in LOOPING[0].body
    ensures Entered(LOOPING, LOOPING_CODE, {}, LOOP, TInt, Cells(n), SCOPES, 1, l)
    ensures PartWays(fp, LOOPING, LOOPING_CODE, fuel, LOOP, TInt, Cells(n), SCOPES, 1, l, s) <==> n == 0
  {
    hide ElabS, ElabProgram, PartWays, Surface.MeanE;
    LoopEntered(n, l);
    NValue(fp, fuel, n, s);
    LoopPartsWaysIff(fp, LOOPING, LOOPING_CODE, {}, fuel, LOOP, TInt, Cells(n), SCOPES, 1, l, s);
    assert LOOPING[0].body[0] == LOOP;
  }

  lemma NValue(fp: Float, fuel: nat, n: int, s: Store)
    ensures Fails(fp, MeanE(fp, LOOPING, fuel, SVar("n"), Cells(n), s)) <==> n == 0
  {
    assert ScopeOf(Cells(n), "n") == 0;
    assert MeanE(fp, LOOPING, fuel, SVar("n"), Cells(n), s) == Ok(Cell(TInt, VInt(n)), s);
  }
}
