/** Why declarations must stand directly in blocks: the grammar also lets one be the branch of an `if`, and the
    slot it names is then in scope whether or not the branch was taken. */
module BareDecl {
  import opened Values
  import opened Ast
  import opened Source
  import opened Surface
  import opened Elab

  /** `int main() { if (0) int x = 1; return x; }` */
  const IF_STMT: SStmt := SIf(SInt(0), SDecl(TInt, "x", Some(SInt(1))), None)
  const RETURN_X: SStmt := SReturn(Some(SVar("x")))
  const LEAKY: SProgram := [SFunc(TInt, "main", [], [IF_STMT, RETURN_X])]

  const IF_CODE: Stmt := If(IntLit(0), Decl(TInt, 0, Some(IntLit(1))), None)
  const RETURN_CODE: Stmt := Return(Some(Var(0, TInt)))
  const LEAKY_CODE: Program := [Func("main", 0, 1, Block([IF_CODE, RETURN_CODE]))]

  /** The program is accepted; compiled, it returns the slot's zero, though no declaration of `x` was executed. */
  lemma BareDeclarationLeaks(fp: Float, s: Store)
    ensures ElabProgram(LEAKY) == Done(LEAKY_CODE) && !ProgramDeclsInBlocks(LEAKY)
    ensures Invoke(fp, LEAKY_CODE, 0, 0, [], s) == Ok(ZERO, s)
    ensures MeanCall(fp, LEAKY, 0, 0, [], s) == Wrong
  {
    Accepted();
    Compiled(fp, s);
    Meant(fp, s);
    assert !DeclsInBlocks(LEAKY[0].body[0]);
    assert !AllDeclsInBlocks(LEAKY[0].body);
  }

  lemma Accepted()
    ensures ElabProgram(LEAKY) == Done(LEAKY_CODE)
  {
    var sigs := SigsOf(LEAKY);
    var g: Scopes := [map[], map[]];
    var g1: Scopes := [map[], map["x" := Binding(TInt, 0)]];
    var body := LEAKY[0].body;
    assert Bind(g, "x", Binding(TInt, 0)) == g1;
    assert ElabS(sigs, Some(TInt), g, 0, IF_STMT) == Done(Piece(IF_CODE, g1, 1));
    assert ElabS(sigs, Some(TInt), g1, 1, RETURN_X) == Done(Piece(RETURN_CODE, g1, 1));
    assert body[1..] == [RETURN_X] && body[1..][1..] == [];
    assert ElabSeq(sigs, Some(TInt), g1, 1, []) == Done(Piece([], g1, 1));
    assert [RETURN_CODE] + [] == [RETURN_CODE] && [IF_CODE] + [RETURN_CODE] == [IF_CODE, RETURN_CODE];
    assert ElabSeq(sigs, Some(TInt), g1, 1, body[1..]) == Done(Piece([RETURN_CODE], g1, 1));
    assert ElabSeq(sigs, Some(TInt), g, 0, body) == Done(Piece([IF_CODE, RETURN_CODE], g1, 1));
    assert [map[]] + [map[]] == g;
    assert ElabFunc(sigs, LEAKY[0]) == Done(LEAKY_CODE[0]);
    assert LEAKY[1..] == [];
    assert ElabFuncs(sigs, []) == Done([]);
    assert [LEAKY_CODE[0]] + [] == LEAKY_CODE;
    assert ElabFuncs(sigs, LEAKY) == Done(LEAKY_CODE);
  }

  lemma Compiled(fp: Float, s: Store)
    ensures Invoke(fp, LEAKY_CODE, 0, 0, [], s) == Ok(ZERO, s)
  {
    var l := Frame(1, []);
    var body := [IF_CODE, RETURN_CODE];
    assert l == [ZERO];
    assert ExecS(fp, LEAKY_CODE, 0, IF_CODE, l, s) == Ok(Next(l), s);
    assert ExecS(fp, LEAKY_CODE, 0, RETURN_CODE, l, s) == Ok(Ret(ZERO), s);
    assert body[1..] == [RETURN_CODE];
    assert ExecSeq(fp, LEAKY_CODE, 0, body[1..], l, s) == Ok(Ret(ZERO), s);
    assert ExecSeq(fp, LEAKY_CODE, 0, body, l, s) == Ok(Ret(ZERO), s);
  }

  lemma Meant(fp: Float, s: Store)
    ensures MeanCall(fp, LEAKY, 0, 0, [], s) == Wrong
  {
    var env: Env := [map[], map[]];
    var body := LEAKY[0].body;
    assert ParamScope([], [], 0) == map[];
    assert [map[]] + [map[]] == env;
    assert ScopeOf(env, "x") < 0;
    assert MeanS(fp, LEAKY, 0, IF_STMT, TInt, env, s) == Ok(SNext(env), s);
    assert MeanS(fp, LEAKY, 0, RETURN_X, TInt, env, s) == Wrong;
    assert body[1..] == [RETURN_X];
    assert MeanSeq(fp, LEAKY, 0, body[1..], TInt, env, s) == Wrong;
    assert MeanSeq(fp, LEAKY, 0, body, TInt, env, s) == Wrong;
  }
}
