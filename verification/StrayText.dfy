/** Stray characters.  The lexer reports one on standard error and hands out an end-of-input token for it, which
    the parser takes for the end of the program: a text means what it means when cut at its first stray
    character, and that character decides whether anything is dropped. */
module StrayText {
  import opened Values
  import opened Ast
  import opened Surface
  import opened Syntax
  import opened Lexer
  import opened EndOfInput
  import opened Unparse
  import opened Render

  /** The first character of `s` begins no token. */
  predicate Stray(s: string)
    requires s != ""
  {
    && !Letter(s[0]) && !Digit(s[0]) && s[0] !in "()[]{};,+-*/<>="
    && !(s[0] == '!' && 1 < |s| && s[1] == '=')
  }

  /** Position of the first stray character from `p` on that is neither in a comment nor in a token, or the
      end of the text. */
  function FirstStray(strtod: string -> Lit, src: string, p: nat): (q: nat)
    requires p <= |src|
    ensures p <= q <= |src|
    decreases |src| - p
  {
    var q := SkipBlank(src, p);
    if q == |src| || Stray(src[q..]) then q else FirstStray(strtod, src, Lex(strtod, src, q).1)
  }

  /** The lexer reads end of input before the end exactly at a stray character. */
  lemma EofIsStray(strtod: string -> Lit, src: string, q: nat)
    requires q < |src|
    ensures Lex(strtod, src, q).0 == Eof <==> Stray(src[q..])
  {
    hide Until, Decimal, ToLong, Cut;
    assert src[q..][0] == src[q];
    assert q + 1 < |src| ==> src[q..][1] == src[q + 1];
  }

  // ----- lexing looks no further than the stray character -----

  lemma {:induction false} UntilCut(src: string, p: nat, q: nat, stop: char -> bool)
    requires p <= q <= |src|
    ensures Until(src[..q], p, stop) == if Until(src, p, stop) < q then Until(src, p, stop) else q
    decreases q - p
  {
    if p < q && !stop(src[p]) { UntilCut(src, p + 1, q, stop); }
  }

  lemma {:induction false} BlankCut(src: string, p: nat, q: nat)
    requires p <= q <= |src| && SkipBlank(src, p) <= q
    ensures SkipBlank(src[..q], p) == SkipBlank(src, p)
    decreases |src| - p
  {
    if p < |src| && IsSpace(src[p]) {
      BlankCut(src, p + 1, q);
    } else if p + 1 < |src| && src[p] == '/' && src[p + 1] == '/' {
      var stop := (c: char) => c == '\n';
      UntilCut(src, p + 1, q, stop);
      BlankCut(src, LineEnd(src, p + 1), q);
    }
  }

  /** A token that ends before the cut, or at the cut where a stray character stands, is the same token. */
  lemma LexCut(strtod: string -> Lit, src: string, p: nat, q: nat)
    requires p < q <= |src| && Lex(strtod, src, p).1 <= q
    requires q < |src| ==> Stray(src[q..])
    ensures Lex(strtod, src[..q], p) == Lex(strtod, src, p)
  {
    hide Until, Decimal, ToLong, Cut, Keyword, Punct;
    if IsAlpha(src[p]) {
      UntilCut(src, p + 1, q, (d: char) => !IsIdent(d));
      assert forall e :: p <= e <= q ==> src[..q][p..e] == src[p..e];
    } else if IsDigit(src[p]) {
      NumberCut(strtod, src, p, q);
    } else {
      SymbolCut(strtod, src, p, q);
    }
  }

  lemma NumberCut(strtod: string -> Lit, src: string, p: nat, q: nat)
    requires p < q <= |src| && Lex(strtod, src, p).1 <= q && IsDigit(src[p])
    requires q < |src| ==> Stray(src[q..])
    ensures Lex(strtod, src[..q], p) == Lex(strtod, src, p)
  {
    hide Until, Decimal, ToLong, Cut, Keyword, Punct;
    var digit := (d: char) => !IsDigit(d);
    UntilCut(src, p + 1, q, digit);
    var n := Until(src, p + 1, digit);
    if n < q { UntilCut(src, n + 1, q, digit); }
    assert forall e :: p <= e <= q ==> src[..q][p..e] == src[p..e];
  }

  lemma SymbolCut(strtod: string -> Lit, src: string, p: nat, q: nat)
    requires p < q <= |src| && Lex(strtod, src, p).1 <= q && !IsAlpha(src[p]) && !IsDigit(src[p])
    requires q < |src| ==> Stray(src[q..])
    ensures Lex(strtod, src[..q], p) == Lex(strtod, src, p)
  {
    hide Until, Decimal, ToLong, Cut, Keyword, Punct;
    assert src[..q][p] == src[p];
    if p + 1 < q {
      assert src[..q][p + 1] == src[p + 1];
    } else if q < |src| {
      assert src[q..][0] == src[q];
    }
  }

  /** Up to the first stray character, and no further, the cut text has the same tokens. */
  lemma {:induction false} LexCutText(strtod: string -> Lit, src: string, p: nat)
    requires p <= |src|
    ensures var q := FirstStray(strtod, src, p);
            && LexAll(strtod, src[..q], p) == Before(LexAll(strtod, src, p))
            && (q == |src| <==> Eof !in LexAll(strtod, src, p))
    decreases |src| - p
  {
    hide Lex, SkipBlank, Stray;
    var q, b := FirstStray(strtod, src, p), SkipBlank(src, p);
    BlankCut(src, p, q);
    if b < |src| {
      EofIsStray(strtod, src, b);
      var r := Lex(strtod, src, b);
      if !Stray(src[b..]) {
        LexCutText(strtod, src, r.1);
        StrayThere(strtod, src, r.1);
        LexCut(strtod, src, b, q);
      }
    }
  }

  lemma {:induction false} StrayThere(strtod: string -> Lit, src: string, p: nat)
    requires p <= |src|
    ensures var q := FirstStray(strtod, src, p); q < |src| ==> Stray(src[q..])
    decreases |src| - p
  {
    hide Lex, SkipBlank, Stray;
    var b := SkipBlank(src, p);
    if b < |src| && !Stray(src[b..]) { StrayThere(strtod, src, Lex(strtod, src, b).1); }
  }

  /** A text parses exactly when the text cut at its first stray character does, and to the same program; what
      follows that character is dropped, and nothing is exactly when there is none. */
  lemma ParsesAsCut(strtod: string -> Lit, src: string)
    ensures var p := ParseProgram(LexAll(strtod, src, 0));
            var q := FirstStray(strtod, src, 0);
            match ParseProgram(LexAll(strtod, src[..q], 0))
            case Failed => p.Failed?
            case Parsed(v, _) => p.Parsed? && p.v == v && (p.rest == [] <==> q == |src|)
  {
    hide LexAll, FirstStray, ParseProgram, Before, Onwards;
    var ts := LexAll(strtod, src, 0);
    LexCutText(strtod, src, 0);
    StopsAtFirstEof(ts);
    OnwardsIsEmptyIff(ts);
  }

  /** Whatever stands behind a program and a stray character is dropped, functions included. */
  lemma DroppedBehindStray(strtod: string -> Lit, dtext: Lit -> string, p: SProgram, more: string)
    requires PrintableProgram(p) && AllWritable(strtod, dtext, PrintProgram(p))
    requires more != "" && !IsSpace(more[0]) && Stray(more)
    ensures var r := ParseProgram(LexAll(strtod, Text(dtext, PrintProgram(p)) + more, 0));
            r.Parsed? && r.v == p && r.rest != []
  {
    hide PrintProgram, ParseProgram, Text, AllWritable, Lex, Stray;
    var ts := PrintProgram(p);
    var src := Text(dtext, ts) + more;
    var q := |Text(dtext, ts)|;
    assert src[0..] == src && src[q..] == more && src[q] == more[0];
    LexTextBefore(strtod, dtext, src, 0, ts, more);
    StrayIsNoBlank(src, q);
    EofIsStray(strtod, src, q);
    ProgramEndsAtEof(p, LexAll(strtod, src, q));
  }

  lemma StrayIsNoBlank(src: string, q: nat)
    requires q < |src| && !IsSpace(src[q]) && Stray(src[q..])
    ensures SkipBlank(src, q) == q
  {
    assert src[q..][0] == src[q];
  }

  // ----- one text -----

  const MAIN: SFunc := SFunc(TInt, "main", [], [SReturn(Some(SInt(1)))])

  /** `@` between two functions. */
  const TWO_FUNCTIONS := "int main ( ) { return 1 ; } " + "@ int f ( ) { return 2 ; } "

  lemma {:induction false} TextConcat(dtext: Lit -> string, a: Tokens, b: Tokens)
    ensures Text(dtext, a + b) == Text(dtext, a) + Text(dtext, b)
  {
    hide TokenText;
    if a == [] {
      assert a + b == b;
    } else {
      TextConcat(dtext, a[1..], b);
      assert (a + b)[1..] == a[1..] + b;
    }
  }

  lemma PrintedMain()
    ensures PrintProgram([MAIN]) ==
            [KwInt, Ident("main"), LParen] + ([RParen, LBrace, KwReturn] + [IntTok(1), Semi, RBrace])
  {
    assert PrintStmts(MAIN.body) == PrintS(MAIN.body[0]) + PrintStmts([]);
    assert PrintProgram([MAIN]) == PrintFunc(MAIN) + PrintProgram([]);
  }

  lemma ThreeTokens(dtext: Lit -> string, a: Token, b: Token, c: Token)
    ensures Text(dtext, [a, b, c]) ==
            TokenText(dtext, a) + " " + (TokenText(dtext, b) + " " + (TokenText(dtext, c) + " "))
  {
    hide TokenText;
    assert [a, b, c][1..] == [b, c] && [b, c][1..] == [c] && [c][1..] == [];
    assert Text(dtext, [c]) == TokenText(dtext, c) + " ";
  }

  lemma MainWords(dtext: Lit -> string)
    ensures Text(dtext, [KwInt, Ident("main"), LParen]) == "int main ( "
    ensures Text(dtext, [RParen, LBrace, KwReturn]) == ") { return "
    ensures Text(dtext, [IntTok(1), Semi, RBrace]) == "1 ; } "
  {
    hide Text;
    ThreeTokens(dtext, KwInt, Ident("main"), LParen);
    ThreeTokens(dtext, RParen, LBrace, KwReturn);
    ThreeTokens(dtext, IntTok(1), Semi, RBrace);
  }

  lemma MainText(dtext: Lit -> string)
    ensures Text(dtext, PrintProgram([MAIN])) == "int main ( ) { return 1 ; } "
  {
    hide Text, PrintProgram;
    PrintedMain();
    MainWords(dtext);
    TextConcat(dtext, [KwInt, Ident("main"), LParen], [RParen, LBrace, KwReturn] + [IntTok(1), Semi, RBrace]);
    TextConcat(dtext, [RParen, LBrace, KwReturn], [IntTok(1), Semi, RBrace]);
  }

  lemma MainIsWritable(strtod: string -> Lit, dtext: Lit -> string)
    ensures PrintableProgram([MAIN]) && AllWritable(strtod, dtext, PrintProgram([MAIN]))
  {
    hide PrintProgram, ReadsBack;
    PrintedMain();
  }

  /** The second function is not part of the program. */
  lemma SecondFunctionDropped(strtod: string -> Lit, dtext: Lit -> string)
    ensures var r := ParseProgram(LexAll(strtod, TWO_FUNCTIONS, 0)); r.Parsed? && r.v == [MAIN] && r.rest != []
  {
    hide PrintProgram, ParseProgram, Text, LexAll, AllWritable, PrintableProgram;
    MainText(dtext);
    MainIsWritable(strtod, dtext);
    DroppedBehindStray(strtod, dtext, [MAIN], "@ int f ( ) { return 2 ; } ");
  }
}
