/** A program that stores through one name of an array and reads through another, from its tree to the run of its
    file. */
module AliasProgram {
  import opened Values
  import opened Ast
  import opened Source
  import opened Surface
  import opened Elab
  import opened Resolve
  import opened Machine
  import opened Compile
  import opened Encode
  import opened ModuleFile
  import opened Preservation
  import opened Backend
  import opened Fits
  import opened Toolchain

  /** `int set(int a[], int b[]) { a[0] = 5; return b[0]; }` */
  const SET: SFunc := SFunc(TInt, "set", [Param(TArrInt, "a"), Param(TArrInt, "b")], [STORE, READ])
  const STORE: SStmt := SAssignIndex("a", SInt(0), SInt(5))
  const READ: SStmt := SReturn(Some(SIndex("b", SInt(0))))

  /** `int main() { int x[1]; return set(x, x); }` */
  const MAIN: SFunc := SFunc(TInt, "main", [], [ALLOC, CALL])
  const ALLOC: SStmt := SDeclArray(TInt, "x", SInt(1))
  const CALL: SStmt := SReturn(Some(SCall("set", [SVar("x"), SVar("x")])))

  const ALIAS: SProgram := [SET, MAIN]

  const STORE_T: Stmt := AssignIndex(Var(0, TArrInt), IntLit(0), IntLit(5))
  const READ_T: Stmt := Return(Some(Index(Var(1, TArrInt), IntLit(0))))
  const ALLOC_T: Stmt := DeclArray(TInt, 0, IntLit(1))
  const CALL_T: Stmt := Return(Some(Call(0, [Var(0, TArrInt), Var(0, TArrInt)], TInt)))
  const SET_T: Func := Func("set", 2, 2, Block([STORE_T, READ_T]))
  const MAIN_T: Func := Func("main", 0, 1, Block([ALLOC_T, CALL_T]))
  const ALIAS_T: Program := [SET_T, MAIN_T]

  // ----- what it means -----

  /** One array of one cell. */
  function OneCell(v: Val): Store { Store([[v]], []) }

  const CELL_A: Cell := Cell(TArrInt, VRef(0))

  /** Two names for the same array. */
  const NAMES: map<Name, Cell> := map["a" := CELL_A, "b" := CELL_A]

  lemma Stored(fp: Float, p: SProgram)
    ensures MeanS(fp, p, 0, STORE, TInt, [NAMES, map[]], OneCell(ZERO)) == Ok(SNext([NAMES, map[]]), OneCell(VInt(5)))
    ensures MeanS(fp, p, 0, READ, TInt, [NAMES, map[]], OneCell(VInt(5))) == Ok(SRet(VInt(5)), OneCell(VInt(5)))
  {
    var env: Env := [NAMES, map[]];
    assert ScopeOf(env, "a") == 0 && ScopeOf(env, "b") == 0;
    assert MeanE(fp, p, 0, SInt(0), env, OneCell(ZERO)) == Ok(Cell(TInt, VInt(0)), OneCell(ZERO));
    assert [ZERO][0 := VInt(5)] == [VInt(5)] && [[ZERO]][0 := [VInt(5)]] == [[VInt(5)]];
    assert Save(fp, VRef(0), VInt(0), VInt(5), OneCell(ZERO)) == Ok((), OneCell(VInt(5)));
    assert Load(fp, VRef(0), VInt(0), OneCell(VInt(5))) == Ok(VInt(5), OneCell(VInt(5)));
    assert MeanE(fp, p, 0, SIndex("b", SInt(0)), env, OneCell(VInt(5))) == Ok(Cell(TInt, VInt(5)), OneCell(VInt(5)));
  }

  /** The callee, called with the same array twice. */
  lemma SetCalled(fp: Float)
    ensures MeanCall(fp, ALIAS, 0, 0, [VRef(0), VRef(0)], OneCell(ZERO)) == Ok(VInt(5), OneCell(VInt(5)))
  {
    hide Surface.MeanS;
    Stored(fp, ALIAS);
    NamesBound();
    assert [NAMES] + [map[]] == [NAMES, map[]];
    InOrder(fp, ALIAS, 0, STORE, READ, [NAMES], [NAMES, map[]], OneCell(ZERO), OneCell(VInt(5)),
            Ok(SRet(VInt(5)), OneCell(VInt(5))));
  }

  lemma NamesBound()
    ensures ParamScope(SET.params, [VRef(0), VRef(0)], 2) == NAMES
  {
    var ps, args := SET.params, [VRef(0), VRef(0)];
    assert ParamScope(ps, args, 0) == map[];
    assert ParamScope(ps, args, 1) == map["a" := CELL_A];
    assert ParamScope(ps, args, 2) == map["a" := CELL_A]["b" := CELL_A];
  }

  /** Two statements in a block, the second of which returns. */
  lemma InOrder(fp: Float, p: SProgram, fuel: nat, a: SStmt, b: SStmt, env: Env, env1: Env, s: Store, s1: Store,
                r: Res<SFlow>)
    requires env != [] && env1 != []
    requires MeanS(fp, p, fuel, a, TInt, env + [map[]], s) == Ok(SNext(env1), s1)
    requires MeanS(fp, p, fuel, b, TInt, env1, s1) == r && r.Ok? && r.val.SRet?
    ensures MeanS(fp, p, fuel, SBlock([a, b]), TInt, env, s) == r
  {
    var ss := [a, b];
    assert ss[1..] == [b];
    assert MeanSeq(fp, p, fuel, ss[1..], TInt, env1, s1) == r;
    assert MeanSeq(fp, p, fuel, ss, TInt, env + [map[]], s) == r;
  }

  const X_BOUND: map<Name, Cell> := map["x" := CELL_A]

  lemma Allocated(fp: Float)
    ensures MeanS(fp, ALIAS, 1, ALLOC, TInt, [map[], map[]], Store([], [])) ==
            Ok(SNext([map[], X_BOUND]), OneCell(ZERO))
  {
    assert seq(1, _ => ZERO) == [ZERO];
    assert NewArray(fp, VInt(1), Store([], [])) == Ok(VRef(0), OneCell(ZERO));
    assert Declare([map[], map[]], "x", CELL_A) == [map[], X_BOUND];
  }

  lemma Called(fp: Float)
    ensures MeanS(fp, ALIAS, 1, CALL, TInt, [map[], X_BOUND], OneCell(ZERO)) == Ok(SRet(VInt(5)), OneCell(VInt(5)))
  {
    hide Surface.MeanCall;
    var env: Env := [map[], X_BOUND];
    var args, s := [SVar("x"), SVar("x")], OneCell(ZERO);
    assert ScopeOf(env, "x") == 1;
    assert MeanE(fp, ALIAS, 1, SVar("x"), env, s) == Ok(CELL_A, s);
    assert SigOf(SET).params == [TInt, TInt] && [TInt, TInt][1..] == [TInt];
    assert args[1..] == [SVar("x")] && args[1..][1..] == [];
    var ref: seq<Val> := [VRef(0)];
    assert [TInt][1..] == [] && ref + [] == ref && ref + ref == [VRef(0), VRef(0)];
    assert MeanArgs(fp, ALIAS, 1, [], [], env, s) == Ok([], s);
    assert MeanArgs(fp, ALIAS, 1, args[1..], [TInt], env, s) == Ok(ref, s);
    assert MeanArgs(fp, ALIAS, 1, args, [TInt, TInt], env, s) == Ok([VRef(0), VRef(0)], s);
    assert FindSig(SigsOf(ALIAS), "set") == 0;
    SetCalled(fp);
    assert MeanE(fp, ALIAS, 1, SCall("set", args), env, s) == Ok(Cell(TInt, VInt(5)), OneCell(VInt(5)));
  }

  /** `main` returns what was stored through the other name. */
  lemma MeansFive(fp: Float)
    ensures MeanCall(fp, ALIAS, 1, 1, [], Store([], [])) == Ok(VInt(5), OneCell(VInt(5)))
  {
    hide Surface.MeanS;
    Allocated(fp);
    Called(fp);
    assert ParamScope([], [], 0) == map[];
    var env: Env, env0: Env := [map[]], [map[], map[]];
    assert env + [map[]] == env0;
    InOrder(fp, ALIAS, 1, ALLOC, CALL, [map[]], [map[], X_BOUND], Store([], []), OneCell(ZERO),
            Ok(SRet(VInt(5)), OneCell(VInt(5))));
  }

  // ----- it is accepted -----

  const SET_SCOPES: Scopes := [map["a" := Binding(TArrInt, 0), "b" := Binding(TArrInt, 1)], map[]]
  const MAIN_SCOPES: Scopes := [map[], map["x" := Binding(TArrInt, 0)]]

  lemma SetPieces(sigs: seq<Sig>)
    ensures ElabS(sigs, Some(TInt), SET_SCOPES, 2, STORE) == Done(Piece(STORE_T, SET_SCOPES, 2))
    ensures ElabS(sigs, Some(TInt), SET_SCOPES, 2, READ) == Done(Piece(READ_T, SET_SCOPES, 2))
  {
    assert ScopeOf(SET_SCOPES, "a") == 0 && ScopeOf(SET_SCOPES, "b") == 0;
    assert ElabE(sigs, SET_SCOPES, SIndex("b", SInt(0))) == Done(Index(Var(1, TArrInt), IntLit(0)));
  }

  lemma MainPieces(sigs: seq<Sig>)
    requires sigs == SigsOf(ALIAS)
    ensures ElabS(sigs, Some(TInt), [map[], map[]], 0, ALLOC) == Done(Piece(ALLOC_T, MAIN_SCOPES, 1))
    ensures ElabS(sigs, Some(TInt), MAIN_SCOPES, 1, CALL) == Done(Piece(CALL_T, MAIN_SCOPES, 1))
  {
    assert Bind([map[], map[]], "x", Binding(TArrInt, 0)) == MAIN_SCOPES;
    assert ScopeOf(MAIN_SCOPES, "x") == 1 && Lookup(MAIN_SCOPES, "x") == Some(Binding(TArrInt, 0));
    var args, v := [SVar("x"), SVar("x")], Var(0, TArrInt);
    assert ElabE(sigs, MAIN_SCOPES, SVar("x")) == Done(v);
    assert sigs[0].params == [TInt, TInt] && [TInt, TInt][1..] == [TInt] && [TInt][1..] == [];
    assert args[1..] == [SVar("x")] && args[1..][1..] == [];
    assert [v] + [] == [v] && [v] + [v] == [v, v];
    assert ElabArgs(sigs, MAIN_SCOPES, args[1..], [TInt]) == Done([v]);
    assert ElabArgs(sigs, MAIN_SCOPES, args, [TInt, TInt]) == Done([v, v]);
    assert FindSig(sigs, "set") == 0;
    assert ElabE(sigs, MAIN_SCOPES, SCall("set", args)) == Done(Call(0, [v, v], TInt));
  }

  lemma BlockOfTwo(sigs: seq<Sig>, g: Scopes, g0: Scopes, g1: Scopes, n: nat, m: nat, a: SStmt, b: SStmt, x: Stmt,
                   y: Stmt)
    requires g != [] && g0 == g + [map[]] && |g1| == |g0| && g1[..|g|] == g
    requires ElabS(sigs, Some(TInt), g0, n, a) == Done(Piece(x, g1, m))
    requires ElabS(sigs, Some(TInt), g1, m, b) == Done(Piece(y, g1, m))
    ensures ElabS(sigs, Some(TInt), g, n, SBlock([a, b])) == Done(Piece(Block([x, y]), g, m))
  {
    var ss := [a, b];
    assert ss[1..] == [b] && ss[1..][1..] == [];
    assert ElabSeq(sigs, Some(TInt), g1, m, []) == Done(Piece([], g1, m));
    assert [y] + [] == [y] && [x] + [y] == [x, y];
    assert ElabSeq(sigs, Some(TInt), g1, m, ss[1..]) == Done(Piece([y], g1, m));
  }

  lemma FunctionsAccepted(sigs: seq<Sig>)
    requires sigs == SigsOf(ALIAS)
    ensures ElabFunc(sigs, SET) == Done(SET_T) && ElabFunc(sigs, MAIN) == Done(MAIN_T)
  {
    hide ElabS;
    SetPieces(sigs);
    MainPieces(sigs);
    var a: map<Name, Binding>, ab: map<Name, Binding> := map["a" := Binding(TArrInt, 0)], SET_SCOPES[0];
    assert ElabParams(SET.params, 0) == Done(map[]);
    assert ElabParams(SET.params, 1) == Done(a);
    assert a["b" := Binding(TArrInt, 1)] == ab;
    assert ElabParams(SET.params, 2) == Done(ab);
    assert [ab] + [map[]] == SET_SCOPES && SET_SCOPES[..1] == [ab];
    BlockOfTwo(sigs, [ab], SET_SCOPES, SET_SCOPES, 2, 2, STORE, READ, STORE_T, READ_T);
    var g: Scopes, g0: Scopes := [map[]], [map[], map[]];
    assert g + [map[]] == g0 && MAIN_SCOPES[..1] == g;
    BlockOfTwo(sigs, [map[]], [map[], map[]], MAIN_SCOPES, 0, 1, ALLOC, CALL, ALLOC_T, CALL_T);
  }

  lemma AliasAccepted()
    ensures Linked(ALIAS, ALIAS_T) && MainOf(ALIAS, 2) == 1
  {
    hide ElabFunc;
    var sigs := SigsOf(ALIAS);
    FunctionsAccepted(sigs);
    assert ALIAS[1..] == [MAIN] && [MAIN][1..] == [];
    assert ElabFuncs(sigs, []) == Done([]);
    assert [MAIN_T] + [] == [MAIN_T] && [SET_T] + [MAIN_T] == ALIAS_T;
    assert ElabFuncs(sigs, [MAIN]) == Done([MAIN_T]);
    assert ElabFuncs(sigs, ALIAS) == Done(ALIAS_T);
    assert CutName("main") == "main";
    assert DeclsInBlocks(STORE) && DeclsInBlocks(READ) && DeclsInBlocks(ALLOC) && DeclsInBlocks(CALL);
  }

  // ----- and its file does the same -----

  const SET_CODE: seq<Instr> :=
    [OpLoadL(0), OpPushI(0), OpPushI(5), OpAStore] + [OpLoadL(1), OpPushI(0), OpALoad, OpRet] + [OpPushI(0), OpRet]
  const MAIN_CODE: seq<Instr> :=
    [OpPushI(1), OpNewArr, OpStoreL(0)] + [OpLoadL(0), OpLoadL(0), OpCall(0, 2), OpRet] + [OpPushI(0), OpRet]

  lemma TwoGenerated(fp: Float, a: Stmt, b: Stmt, x: seq<Instr>, y: seq<Instr>)
    requires forall pc: nat :: GenS(fp, a, pc, []) == Gen(x, []) && GenS(fp, b, pc, []) == Gen(y, [])
    ensures GenS(fp, Block([a, b]), 0, []) == Gen(x + y, [])
  {
    var ss := [a, b];
    assert ss[1..] == [b] && ss[1..][1..] == [];
    assert GenSeq(fp, [], |x| + |y|, []) == Gen([], []);
    assert y + [] == y;
    assert GenS(fp, a, 0, []) == Gen(x, []) && GenS(fp, b, |x|, []) == Gen(y, []);
    assert GenSeq(fp, ss[1..], |x|, []) == Gen(y, []);
    assert GenSeq(fp, ss, 0, []) == Gen(x + y, []);
  }

  lemma SetGenerated(fp: Float)
    ensures GenFunc(fp, SET_T, []) == Gen(SET_CODE, [])
  {
    var x := [OpLoadL(0), OpPushI(0), OpPushI(5), OpAStore];
    var y := [OpLoadL(1), OpPushI(0), OpALoad, OpRet];
    forall pc: nat ensures GenS(fp, STORE_T, pc, []) == Gen(x, []) && GenS(fp, READ_T, pc, []) == Gen(y, []) {
      assert GenE(fp, Index(Var(1, TArrInt), IntLit(0)), []) == Gen([OpLoadL(1), OpPushI(0), OpALoad], []);
      assert [OpLoadL(1), OpPushI(0), OpALoad] + [OpRet] == y;
    }
    TwoGenerated(fp, STORE_T, READ_T, x, y);
  }

  lemma MainGenerated(fp: Float)
    ensures GenFunc(fp, MAIN_T, []) == Gen(MAIN_CODE, [])
  {
    var x := [OpPushI(1), OpNewArr, OpStoreL(0)];
    var y := [OpLoadL(0), OpLoadL(0), OpCall(0, 2), OpRet];
    var v := Var(0, TArrInt);
    var args := [v, v];
    assert args[1..] == [v] && args[1..][1..] == [];
    assert GenE(fp, v, []) == Gen([OpLoadL(0)], []);
    assert [OpLoadL(0)] + [] == [OpLoadL(0)] && [OpLoadL(0)] + [OpLoadL(0)] == [OpLoadL(0), OpLoadL(0)];
    assert GenArgs(fp, args[1..], []) == Gen([OpLoadL(0)], []);
    assert GenArgs(fp, args, []) == Gen([OpLoadL(0), OpLoadL(0)], []);
    assert [OpLoadL(0), OpLoadL(0)] + [OpCall(0, 2)] + [OpRet] == y;
    assert [OpPushI(1)] + [OpNewArr, OpStoreL(0)] == x;
    TwoGenerated(fp, ALLOC_T, CALL_T, x, y);
  }

  lemma ImageIs(fp: Float)
    ensures GenProgram(fp, ALIAS_T) ==
            Image([], [Routine("set", 2, 2, SET_CODE), Routine("main", 0, 1, MAIN_CODE)], 1)
  {
    hide Compile.GenFunc;
    SetGenerated(fp);
    MainGenerated(fp);
    assert PoolBefore(fp, ALIAS_T, 0) == [] && PoolBefore(fp, ALIAS_T, 1) == [] && PoolBefore(fp, ALIAS_T, 2) == [];
    assert CutName("main") == "main" && CutName("set") == "set";
    assert EntryOf(ALIAS_T, 2) == 1;
  }

  lemma AliasCompilable(fp: Float)
    requires EqIsIdentityOnLiterals(fp)
    ensures Compilable(fp, ALIAS_T)
  {
    hide Compile.GenProgram, Off;
    ImageIs(fp);
    OffAtMost(SET_CODE, |SET_CODE|);
    OffAtMost(MAIN_CODE, |MAIN_CODE|);
    FewOperands();
  }

  lemma FewOperands()
    ensures FitsStack(ALIAS_T)
  {
    var v := Var(0, TArrInt);
    assert [v, v][1..] == [v] && [v, v][1..][1..] == [];
    assert PeakArgs([v, v]) == 2;
    assert [STORE_T, READ_T][1..] == [READ_T] && [STORE_T, READ_T][1..][1..] == [];
    assert [ALLOC_T, CALL_T][1..] == [CALL_T] && [ALLOC_T, CALL_T][1..][1..] == [];
    assert PeakS(STORE_T) == 3 && PeakS(READ_T) == 2 && PeakS(ALLOC_T) == 1 && PeakS(CALL_T) == 2;
    assert PeakSeq([READ_T]) == 2 && PeakSeq([CALL_T]) == 2;
  }

  /** The program is accepted, it means 5, and its file, given enough instructions, returns 5. */
  lemma StoreIsSeenThroughAlias(fp: Float)
    requires EqIsIdentityOnLiterals(fp)
    ensures ElabProgram(ALIAS) == Done(ALIAS_T)
    ensures MeanCall(fp, ALIAS, 1, 1, [], Store([], [])) == Ok(VInt(5), OneCell(VInt(5)))
    ensures exists n: nat :: Settles(FileRun(fp, CompiledFile(fp, ALIAS_T)), n, Ok(VInt(5), OneCell(VInt(5))))
  {
    hide Compilable, CompiledFile, FileRun, Settles, ElabProgram, Surface.MeanCall;
    AliasAccepted();
    AliasCompilable(fp);
    MeansFive(fp);
    CompilerCorrect(fp, ALIAS, ALIAS_T);
    assert TextMeaning(fp, ALIAS)(1) == Ok(VInt(5), OneCell(VInt(5)));
  }
}
