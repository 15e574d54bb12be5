/** Accepted texts of any length: from 50 lines on, a pointer to the parser's current token dangles on the way. */
module LongTexts {
  import opened Values
  import opened Ast
  import opened Surface
  import opened Elab
  import opened Syntax
  import opened Lexer
  import opened Prescan
  import opened EndOfInput
  import opened Frontend
  import opened Unparse
  import opened Render

  const LINE: SStmt := SPrint(SInt(1))

  function Lines(n: nat): (ss: seq<SStmt>) { if n == 0 then [] else [LINE] + Lines(n - 1) }

  /** `int main ( ) { print ( 1 ) ; ... }` with `n` such lines. */
  function Long(n: nat): SProgram { [SFunc(TInt, "main", [], Lines(n))] }

  function LongText(dtext: Lit -> string, n: nat): string { Text(dtext, PrintProgram(Long(n))) }

  lemma {:induction false} LinesPrinted(n: nat)
    ensures AllPrintable(Lines(n)) && |PrintStmts(Lines(n))| == 5 * n
    ensures forall i :: 0 <= i < |PrintStmts(Lines(n))| ==>
              PrintStmts(Lines(n))[i] in [KwPrint, LParen, IntTok(1), RParen, Semi]
  {
    if n > 0 {
      LinesPrinted(n - 1);
      assert Lines(n)[1..] == Lines(n - 1);
      assert PrintS(LINE) == [KwPrint, LParen, IntTok(1), RParen, Semi];
    }
  }

  lemma LongPrinted(strtod: string -> Lit, dtext: Lit -> string, n: nat)
    ensures PrintableProgram(Long(n)) && AllWritable(strtod, dtext, PrintProgram(Long(n)))
    ensures |PrintProgram(Long(n))| == 5 * n + 6
  {
    hide PrintStmts, AllPrintable, ReadsBack;
    LinesPrinted(n);
    var f := Long(n)[0];
    assert Long(n)[1..] == [];
    assert PrintProgram(Long(n)) == PrintFunc(f) + [];
    assert PrintFunc(f) == [KwInt, Ident("main"), LParen, RParen, LBrace] + PrintStmts(Lines(n)) + [RBrace];
  }

  lemma {:induction false} LinesAccepted(sigs: seq<Sig>, ret: Option<Type>, g: Scopes, m: nat, n: nat)
    requires g != []
    ensures ElabSeq(sigs, ret, g, m, Lines(n)).Done?
  {
    if n > 0 {
      LinesAccepted(sigs, ret, g, m, n - 1);
      assert Lines(n)[1..] == Lines(n - 1);
      assert ElabS(sigs, ret, g, m, LINE) == Done(Piece(Print(IntLit(1)), g, m));
    }
  }

  lemma LongAccepted(n: nat)
    ensures ElabProgram(Long(n)).Done?
  {
    hide ElabSeq;
    var sigs, f := SigsOf(Long(n)), Long(n)[0];
    LinesAccepted(sigs, Some(TInt), [map[]] + [map[]], 0, n);
    assert ElabFunc(sigs, f).Done?;
    assert Long(n)[1..] == [] && ElabFuncs(sigs, []) == Done([]);
  }

  /** The text is accepted, and has no stray character. */
  lemma LongRead(strtod: string -> Lit, dtext: Lit -> string, n: nat)
    ensures ParseProgram(LexAll(strtod, LongText(dtext, n), 0)) == Parsed(Long(n), [])
    ensures |Before(LexAll(strtod, LongText(dtext, n), 0))| == 5 * n + 6
  {
    hide LexAll, ParseProgram, PrintProgram, Text, AllWritable, Long, Before, Onwards;
    LongPrinted(strtod, dtext, n);
    TextRoundTrip(strtod, dtext, Long(n));
    var src := LongText(dtext, n);
    assert src[0..] == src;
    LexText(strtod, dtext, src, 0, PrintProgram(Long(n)));
    var ts := LexAll(strtod, src, 0);
    StopsAtFirstEof(ts);
    OnwardsIsEmptyIff(ts);
    assert |ts| == |Before(ts)| + |Onwards(ts)|;
  }

  /** The parser accepts every such text, and its current token dangles on the way from 50 lines on. */
  method ParseLong(strtod: string -> Lit, dtext: Lit -> string, hash: Name -> nat, n: nat)
    returns (r: Option<Program>, ghost dangled: bool)
    ensures r.Some? && (dangled <==> n >= 50)
  {
    hide LexAll, ParseProgram, ElabProgram, LongText, Before;
    LongRead(strtod, dtext, n);
    LongAccepted(n);
    r, dangled := ParseText(strtod, hash, LongText(dtext, n));
  }
}
