/** Two programs that show why the conditions on names are needed: a loop and an `else` branch that use the name
    their bare declaration declares. */
module ShadowedLoop {
  import opened Values
  import opened Ast
  import opened Source
  import opened Surface
  import opened Elab
  import opened Resolve
  import opened BareBranches

  /** `int main() { int x = 1; { while (x) int x = 0; } return 0; }` */
  const LOOP: SStmt := SWhile(SVar("x"), SDecl(TInt, "x", Some(SInt(0))))
  const SHADOWING: SProgram := [SFunc(TInt, "main", [], BODY)]
  const BODY: seq<SStmt> := [SDecl(TInt, "x", Some(SInt(1))), SBlock([LOOP]), SReturn(Some(SInt(0)))]

  const LOOP_CODE: Stmt := While(Var(0, TInt), Decl(TInt, 1, Some(IntLit(0))))
  const CODE: seq<Stmt> := [Decl(TInt, 0, Some(IntLit(1))), Block([LOOP_CODE]), Return(Some(IntLit(0)))]
  const SHADOWING_CODE: Program := [Func("main", 0, 2, Block(CODE))]

  /** The program is accepted.  With named scopes the loop ends after one round, when its condition reads the new
      `x`; compiled, the condition keeps reading the outer one, and the program runs forever. */
  lemma LoopReadsTheOuterName(fp: Float, fuel: nat, s: Store)
    ensures ElabProgram(SHADOWING) == Done(SHADOWING_CODE)
    ensures fuel > 0 ==> MeanCall(fp, SHADOWING, fuel, 0, [], s) == Ok(VInt(0), s)
    ensures Invoke(fp, SHADOWING_CODE, fuel, 0, [], s) == Timeout
  {
    hide ElabProgram, Surface.MeanCall, Source.Invoke;
    Accepted();
    if fuel > 0 { Meant(fp, fuel, s); }
    Compiled(fp, fuel, s);
  }

  lemma Accepted()
    ensures ElabProgram(SHADOWING) == Done(SHADOWING_CODE)
  {
    hide ElabS;
    var sigs := SigsOf(SHADOWING);
    var g0: Scopes, g1: Scopes := [map[], map[]], [map[], map["x" := Binding(TInt, 0)]];
    AcceptedPieces(sigs, g0, g1);
    AcceptedInOrder(sigs, g0, g1);
    BodyAccepted(sigs, g0, g1);
    assert ElabFunc(sigs, SHADOWING[0]) == Done(SHADOWING_CODE[0]);
    assert SHADOWING[1..] == [] && ElabFuncs(sigs, []) == Done([]);
    assert [SHADOWING_CODE[0]] + [] == SHADOWING_CODE;
    assert ElabFuncs(sigs, SHADOWING) == Done(SHADOWING_CODE);
  }

  lemma BodyAccepted(sigs: seq<Sig>, g0: Scopes, g1: Scopes)
    requires g0 == [map[], map[]] && g1 == [map[], map["x" := Binding(TInt, 0)]]
    requires ElabSeq(sigs, Some(TInt), g0, 0, BODY) == Done(Piece(CODE, g1, 2))
    ensures ElabS(sigs, Some(TInt), [map[]], 0, SBlock(BODY)) == Done(Piece(Block(CODE), [map[]], 2))
  {
    hide ElabSeq;
    assert [map[]] + [map[]] == g0 && g1[..1] == [map[]];
  }

  lemma AcceptedPieces(sigs: seq<Sig>, g0: Scopes, g1: Scopes)
    requires g0 == [map[], map[]] && g1 == [map[], map["x" := Binding(TInt, 0)]]
    ensures ElabS(sigs, Some(TInt), g0, 0, BODY[0]) == Done(Piece(CODE[0], g1, 1))
    ensures ElabS(sigs, Some(TInt), g1, 1, BODY[1]) == Done(Piece(CODE[1], g1, 2))
    ensures ElabS(sigs, Some(TInt), g1, 2, BODY[2]) == Done(Piece(CODE[2], g1, 2))
  {
    var g2 := g1 + [map[]];
    var g3 := g1 + [map["x" := Binding(TInt, 1)]];
    assert Bind(g0, "x", Binding(TInt, 0)) == g1;
    LoopAccepted(sigs, g1, g2, g3);
    assert [LOOP][1..] == [] && [LOOP_CODE] + [] == [LOOP_CODE];
    assert ElabSeq(sigs, Some(TInt), g3, 2, []) == Done(Piece([], g3, 2));
    assert ElabSeq(sigs, Some(TInt), g2, 1, [LOOP]) == Done(Piece([LOOP_CODE], g3, 2));
    assert g3[..2] == g1;
  }

  lemma LoopAccepted(sigs: seq<Sig>, g1: Scopes, g2: Scopes, g3: Scopes)
    requires g1 == [map[], map["x" := Binding(TInt, 0)]]
    requires g2 == g1 + [map[]] && g3 == g1 + [map["x" := Binding(TInt, 1)]]
    ensures ElabS(sigs, Some(TInt), g2, 1, LOOP) == Done(Piece(LOOP_CODE, g3, 2))
  {
    assert Bind(g2, "x", Binding(TInt, 1)) == g3;
    assert ScopeOf(g2, "x") == 1 && Lookup(g2, "x") == Some(Binding(TInt, 0));
    assert ElabE(sigs, g2, SVar("x")) == Done(Var(0, TInt));
    assert ElabS(sigs, Some(TInt), g2, 1, LOOP.body1) == Done(Piece(LOOP_CODE.body1, g3, 2));
  }

  lemma AcceptedInOrder(sigs: seq<Sig>, g0: Scopes, g1: Scopes)
    requires g0 != [] && g1 != []
    requires ElabS(sigs, Some(TInt), g0, 0, BODY[0]) == Done(Piece(CODE[0], g1, 1))
    requires ElabS(sigs, Some(TInt), g1, 1, BODY[1]) == Done(Piece(CODE[1], g1, 2))
    requires ElabS(sigs, Some(TInt), g1, 2, BODY[2]) == Done(Piece(CODE[2], g1, 2))
    ensures ElabSeq(sigs, Some(TInt), g0, 0, BODY) == Done(Piece(CODE, g1, 2))
  {
    hide ElabS;
    assert BODY[1..][1..] == BODY[2..] && BODY[2..][1..] == [];
    assert ElabSeq(sigs, Some(TInt), g1, 2, []) == Done(Piece([], g1, 2));
    assert [CODE[2]] + [] == CODE[2..] && [CODE[1]] + CODE[2..] == CODE[1..] && [CODE[0]] + CODE[1..] == CODE;
    assert ElabSeq(sigs, Some(TInt), g1, 2, BODY[2..]) == Done(Piece(CODE[2..], g1, 2));
    assert ElabSeq(sigs, Some(TInt), g1, 1, BODY[1..]) == Done(Piece(CODE[1..], g1, 2));
  }

  lemma Meant(fp: Float, fuel: nat, s: Store)
    requires fuel > 0
    ensures MeanCall(fp, SHADOWING, fuel, 0, [], s) == Ok(VInt(0), s)
  {
    var p := SHADOWING;
    var one, zero := map["x" := Cell(TInt, VInt(1))], map["x" := Cell(TInt, VInt(0))];
    var e0: Env, e1: Env, e2: Env, e3: Env := [map[], map[]], [map[], one], [map[], one, map[]], [map[], one, zero];
    assert ParamScope([], [], 0) == map[] && [map[]] + [map[]] == e0 && e1 + [map[]] == e2;
    assert Declare(e0, "x", Cell(TInt, VInt(1))) == e1 && Declare(e2, "x", Cell(TInt, VInt(0))) == e3;
    assert MeanS(fp, p, fuel, BODY[0], TInt, e0, s) == Ok(SNext(e1), s);
    MeantLoop(fp, fuel, e2, e3, s);
    assert [LOOP][1..] == [] && e3[..2] == e1;
    assert MeanSeq(fp, p, fuel, [LOOP], TInt, e2, s) == Ok(SNext(e3), s);
    assert MeanS(fp, p, fuel, BODY[1], TInt, e1, s) == Ok(SNext(e1), s);
    assert MeanS(fp, p, fuel, BODY[2], TInt, e1, s) == Ok(SRet(VInt(0)), s);
    MeantInOrder(fp, fuel, e0, e1, s);
    assert MeanS(fp, p, fuel, SBlock(BODY), TInt, [map[]], s) == Ok(SRet(VInt(0)), s);
  }

  lemma MeantInOrder(fp: Float, fuel: nat, e0: Env, e1: Env, s: Store)
    requires e0 != [] && e1 != []
    requires MeanS(fp, SHADOWING, fuel, BODY[0], TInt, e0, s) == Ok(SNext(e1), s)
    requires MeanS(fp, SHADOWING, fuel, BODY[1], TInt, e1, s) == Ok(SNext(e1), s)
    requires MeanS(fp, SHADOWING, fuel, BODY[2], TInt, e1, s) == Ok(SRet(VInt(0)), s)
    ensures MeanSeq(fp, SHADOWING, fuel, BODY, TInt, e0, s) == Ok(SRet(VInt(0)), s)
  {
    hide Surface.MeanS;
    assert BODY[1..][1..] == BODY[2..];
    assert MeanSeq(fp, SHADOWING, fuel, BODY[2..], TInt, e1, s) == Ok(SRet(VInt(0)), s);
    assert MeanSeq(fp, SHADOWING, fuel, BODY[1..], TInt, e1, s) == Ok(SRet(VInt(0)), s);
  }

  /** One round, then the new `x` is 0. */
  lemma MeantLoop(fp: Float, fuel: nat, e2: Env, e3: Env, s: Store)
    requires fuel > 0 && |e2| == 3 && |e3| == 3 && "x" !in e2[2] && "x" in e2[1] && e2[1]["x"] == Cell(TInt, VInt(1))
    requires e3 == Declare(e2, "x", Cell(TInt, VInt(0)))
    ensures MeanS(fp, SHADOWING, fuel, LOOP, TInt, e2, s) == Ok(SNext(e3), s)
  {
    assert ScopeOf(e2, "x") == 1 && ScopeOf(e3, "x") == 2;
    assert MeanE(fp, SHADOWING, fuel, SVar("x"), e2, s) == Ok(Cell(TInt, VInt(1)), s);
    assert MeanS(fp, SHADOWING, fuel, LOOP.body1, TInt, e2, s) == Ok(SNext(e3), s);
    assert MeanE(fp, SHADOWING, fuel - 1, SVar("x"), e3, s) == Ok(Cell(TInt, VInt(0)), s);
    assert MeanS(fp, SHADOWING, fuel - 1, LOOP, TInt, e3, s) == Ok(SNext(e3), s);
  }

  lemma Compiled(fp: Float, fuel: nat, s: Store)
    ensures Invoke(fp, SHADOWING_CODE, fuel, 0, [], s) == Timeout
  {
    var l, l1 := Frame(2, []), [VInt(1), ZERO];
    assert l == [ZERO, ZERO] && l[0 := VInt(1)] == l1;
    assert ExecS(fp, SHADOWING_CODE, fuel, CODE[0], l, s) == Ok(Next(l1), s);
    Spins(fp, fuel, l1, s);
    assert [LOOP_CODE][1..] == [];
    assert ExecSeq(fp, SHADOWING_CODE, fuel, [LOOP_CODE], l1, s) == Timeout;
    assert ExecS(fp, SHADOWING_CODE, fuel, CODE[1], l1, s) == Timeout;
    assert ExecSeq(fp, SHADOWING_CODE, fuel, CODE[1..], l1, s) == Timeout;
    assert ExecSeq(fp, SHADOWING_CODE, fuel, CODE, l, s) == Timeout;
    assert ExecS(fp, SHADOWING_CODE, fuel, Block(CODE), l, s) == Timeout;
  }

  /** The compiled loop only ever writes the slot its condition does not read. */
  lemma {:induction false} Spins(fp: Float, fuel: nat, l: seq<Val>, s: Store)
    requires |l| == 2 && l[0] == VInt(1)
    ensures ExecS(fp, SHADOWING_CODE, fuel, LOOP_CODE, l, s) == Timeout
  {
    assert ExecS(fp, SHADOWING_CODE, fuel, LOOP_CODE.body1, l, s) == Ok(Next(l[1 := VInt(0)]), s);
    if fuel > 0 { Spins(fp, fuel - 1, l[1 := VInt(0)], s); }
  }

  // ----- the branch that is taken uses the name of the one that is not -----

  /** `if (0) int x = 1; else return x;` */
  const BRANCH: SStmt := SIf(SInt(0), SDecl(TInt, "x", Some(SInt(1))), Some(SReturn(Some(SVar("x")))))

  const BRANCH_CODE: Stmt := If(IntLit(0), Decl(TInt, 0, Some(IntLit(1))), Some(Return(Some(Var(0, TInt)))))

  /** With no `x` declared, the statement is accepted: its `else` branch returns the slot of the declaration that
      was skipped. */
  lemma ElseReadsSkippedDeclaration(fp: Float, p: SProgram, prog: Program, fuel: nat, l: seq<Val>, s: Store)
    requires |l| > 0
    ensures Agree([map[]], [map[]], l) && Names(BRANCH.els.value, "x")
    ensures ElabS(SigsOf(p), Some(TInt), [map[]], 0, BRANCH)
            == Done(Piece(BRANCH_CODE, [map["x" := Binding(TInt, 0)]], 1))
    ensures ExecS(fp, prog, fuel, BRANCH_CODE, l, s) == Ok(Ret(l[0]), s)
    ensures MeanS(fp, p, fuel, BRANCH, TInt, [map[]], s) == Wrong
  {
    hide ElabS, Surface.MeanS, Source.ExecS;
    assert SameScope(map[], map[], l);
    BranchAccepted(SigsOf(p));
    BranchRuns(fp, p, prog, fuel, l, s);
  }

  lemma BranchAccepted(sigs: seq<Sig>)
    ensures ElabS(sigs, Some(TInt), [map[]], 0, BRANCH) == Done(Piece(BRANCH_CODE, [map["x" := Binding(TInt, 0)]], 1))
  {
    var g1: Scopes := [map["x" := Binding(TInt, 0)]];
    assert Bind([map[]], "x", Binding(TInt, 0)) == g1 && Lookup(g1, "x") == Some(Binding(TInt, 0));
    assert ElabS(sigs, Some(TInt), [map[]], 0, BRANCH.thn) == Done(Piece(BRANCH_CODE.thn, g1, 1));
    assert ElabS(sigs, Some(TInt), g1, 1, BRANCH.els.value) == Done(Piece(BRANCH_CODE.els.value, g1, 1));
  }

  lemma BranchRuns(fp: Float, p: SProgram, prog: Program, fuel: nat, l: seq<Val>, s: Store)
    requires |l| > 0
    ensures ExecS(fp, prog, fuel, BRANCH_CODE, l, s) == Ok(Ret(l[0]), s)
    ensures MeanS(fp, p, fuel, BRANCH, TInt, [map[]], s) == Wrong
  {
    assert ScopeOf<Cell>([map[]], "x") < 0;
    assert MeanE(fp, p, fuel, SVar("x"), [map[]], s) == Wrong;
    assert ExecS(fp, prog, fuel, BRANCH_CODE.els.value, l, s) == Ok(Ret(l[0]), s);
  }
}
