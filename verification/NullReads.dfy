/** Texts on which the compiler reads through a null pointer: a declaration or a parameter without a name. */
module NullReads {
  import opened Values
  import opened Ast
  import opened Surface
  import opened Syntax
  import opened Lexer
  import opened Prescan
  import opened Declared
  import opened Recovery
  import opened Render
  import opened StrayText

  /** A type that no name follows, wherever a statement is due. */
  lemma NamelessDeclaration(sigs: seq<Sig>, a: At)
    requires !a.crashed && TypeOfKw(Head(a.ts)).Some? && !Head(Tail(a.ts)).Ident?
    ensures RStmt(sigs, a).crashed
  {
    hide RExpr;
  }

  /** A type that no name follows, at the head of a parameter list. */
  lemma NamelessParameter(a: At)
    requires !a.crashed && TypeOfKw(Head(a.ts)).Some? && !Head(Tail(a.ts)).Ident?
    ensures RParams(a).crashed
  {
  }

  /** What is walked before the body of `int main ( ) {`. */
  lemma HeaderWalked(ts: Tokens)
    requires Head(ts) == LParen && Head(Tail(ts)) == RParen
    ensures RHeader(Begin(ts)) == At(Tail(Tail(ts)), [{}], false, [], false)
  {
  }

  /** `int main() { int ; }` */
  const NO_NAME_TEXT := "int main ( ) { int ; } "
  const NO_NAME: Tokens := [KwInt, Ident("main"), LParen] + ([RParen, LBrace, KwInt] + [Semi, RBrace])

  lemma NoNameBody(sigs: seq<Sig>, a: At)
    requires a.ts == [LBrace, KwInt, Semi, RBrace] && !a.crashed && !a.err
    ensures RBlock(sigs, a).crashed
  {
    hide RStmt;
    var b := Want(a, LBrace).(open := Pushed(a.open));
    NamelessDeclaration(sigs, b);
    assert RStmts(sigs, b).crashed;
  }

  lemma NoNameWalked(sigs: seq<Sig>)
    ensures VerdictOf(RProgram(sigs, Begin(NO_NAME))).NullRead?
  {
    hide RHeader, RBlock;
    var ts := [LParen, RParen, LBrace, KwInt, Semi, RBrace];
    assert Tail(Tail(NO_NAME)) == ts && Tail(Tail(ts)) == [LBrace, KwInt, Semi, RBrace];
    HeaderWalked(ts);
    NoNameBody(sigs, RHeader(Begin(ts)));
    assert RFunc(sigs, Begin(NO_NAME)).crashed;
  }

  lemma TwoTokens(dtext: Lit -> string, a: Token, b: Token)
    ensures Text(dtext, [a, b]) == TokenText(dtext, a) + " " + (TokenText(dtext, b) + " ")
  {
    hide TokenText;
    assert [a, b][1..] == [b] && [b][1..] == [];
    assert Text(dtext, [b]) == TokenText(dtext, b) + " ";
  }

  lemma NoNameWords(dtext: Lit -> string)
    ensures Text(dtext, [KwInt, Ident("main"), LParen]) == "int main ( "
    ensures Text(dtext, [RParen, LBrace, KwInt]) == ") { int "
    ensures Text(dtext, [Semi, RBrace]) == "; } "
  {
    hide Text;
    ThreeTokens(dtext, KwInt, Ident("main"), LParen);
    ThreeTokens(dtext, RParen, LBrace, KwInt);
    TwoTokens(dtext, Semi, RBrace);
  }

  lemma NoNameLexed(strtod: string -> Lit, dtext: Lit -> string)
    ensures LexAll(strtod, NO_NAME_TEXT, 0) == NO_NAME
  {
    hide LexAll, Text, TokenText;
    NoNameWords(dtext);
    TextConcat(dtext, [KwInt, Ident("main"), LParen], [RParen, LBrace, KwInt] + [Semi, RBrace]);
    TextConcat(dtext, [RParen, LBrace, KwInt], [Semi, RBrace]);
    LexWhole(strtod, dtext, NO_NAME_TEXT, NO_NAME);
  }

  lemma LexWhole(strtod: string -> Lit, dtext: Lit -> string, src: string, ts: Tokens)
    requires src == Text(dtext, ts) && AllWritable(strtod, dtext, ts)
    ensures LexAll(strtod, src, 0) == ts
  {
    hide LexAll, Text, AllWritable;
    assert src[0..] == src;
    LexText(strtod, dtext, src, 0, ts);
  }

  /** The declaration's name is entered as a null pointer. */
  lemma NoNameHasNoVerdict(strtod: string -> Lit, dtext: Lit -> string)
    ensures var ts := LexAll(strtod, NO_NAME_TEXT, 0); VerdictOf(RProgram(Scan(ts, []), Begin(ts))).NullRead?
  {
    hide LexAll, RProgram, Scan;
    NoNameLexed(strtod, dtext);
    NoNameWalked(Scan(NO_NAME, []));
  }

  /** `int f(int) { return 1; }` */
  const NO_PARAMETER_TEXT := "int f ( int ) { return 1 ; } "
  const NO_PARAMETER: Tokens :=
    [KwInt, Ident("f"), LParen] + ([KwInt, RParen, LBrace] + ([KwReturn, IntTok(1)] + [Semi, RBrace]))

  lemma NoParameterWalked(sigs: seq<Sig>)
    ensures VerdictOf(RProgram(sigs, Begin(NO_PARAMETER))).NullRead?
  {
    hide RParams, RBlock;
    var a := Step(Step(Step(Begin(NO_PARAMETER)))).(open := [{}]);
    assert Tail(Tail(Tail(NO_PARAMETER))) == [KwInt, RParen, LBrace, KwReturn, IntTok(1), Semi, RBrace];
    NamelessParameter(a);
    assert RHeader(Step(Step(Begin(NO_PARAMETER)))).crashed;
    assert RFunc(sigs, Begin(NO_PARAMETER)).crashed;
  }

  lemma NoParameterWords(dtext: Lit -> string)
    ensures Text(dtext, [KwInt, Ident("f"), LParen]) == "int f ( "
    ensures Text(dtext, [KwInt, RParen, LBrace]) == "int ) { "
    ensures Text(dtext, [KwReturn, IntTok(1)]) == "return 1 "
    ensures Text(dtext, [Semi, RBrace]) == "; } "
  {
    hide Text;
    ThreeTokens(dtext, KwInt, Ident("f"), LParen);
    ThreeTokens(dtext, KwInt, RParen, LBrace);
    TwoTokens(dtext, KwReturn, IntTok(1));
    TwoTokens(dtext, Semi, RBrace);
  }

  lemma NoParameterLexed(strtod: string -> Lit, dtext: Lit -> string)
    ensures LexAll(strtod, NO_PARAMETER_TEXT, 0) == NO_PARAMETER
  {
    hide LexAll, Text, TokenText;
    NoParameterWords(dtext);
    var more := [KwReturn, IntTok(1)] + [Semi, RBrace];
    TextConcat(dtext, [KwInt, Ident("f"), LParen], [KwInt, RParen, LBrace] + more);
    TextConcat(dtext, [KwInt, RParen, LBrace], more);
    TextConcat(dtext, [KwReturn, IntTok(1)], [Semi, RBrace]);
    LexWhole(strtod, dtext, NO_PARAMETER_TEXT, NO_PARAMETER);
  }

  /** The parameter's name is entered as a null pointer. */
  lemma NoParameterHasNoVerdict(strtod: string -> Lit, dtext: Lit -> string)
    ensures var ts := LexAll(strtod, NO_PARAMETER_TEXT, 0); VerdictOf(RProgram(Scan(ts, []), Begin(ts))).NullRead?
  {
    hide LexAll, RProgram, Scan;
    NoParameterLexed(strtod, dtext);
    NoParameterWalked(Scan(NO_PARAMETER, []));
  }
}
