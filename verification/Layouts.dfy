/** Ordinary texts: any white space and comments between tokens, and none where the next character cannot continue
    the token before it.  What a text of letters, digits or a point stands for is stated on its characters. */
module Layouts {
  import opened Values
  import opened Ast
  import opened Surface
  import opened Syntax
  import opened Elab
  import opened Lexer
  import opened Unparse
  import opened Render
  import opened StrayText
  import opened Toolchain
  import opened Bytes
  import opened Backend

  // ----- numbers -----

  /** Positional value, most significant digit first. */
  function Value(w: string): nat
    requires forall i :: 0 <= i < |w| ==> Digit(w[i])
  {
    if w == "" then 0
    else
      assert Digit(w[0]);
      var d: nat, unit: nat := w[0] as int - '0' as int, Pow10(|w| - 1);
      assert d * unit >= 0;
      d * unit + Value(w[1..])
  }

  lemma {:induction false} DecimalIsValue(w: string)
    requires forall i :: 0 <= i < |w| ==> Digit(w[i])
    ensures Decimal(w) == Value(w)
  {
    if w != "" {
      DecimalIsValue(w[1..]);
      FrontDigit(w);
    }
  }

  lemma {:induction false} FrontDigit(w: string)
    requires w != "" && forall i :: 0 <= i < |w| ==> Digit(w[i])
    ensures Decimal(w) == (w[0] as int - '0' as int) * Pow10(|w| - 1) + Decimal(w[1..])
  {
    if |w| == 1 {
      assert w[..0] == "";
    } else {
      hide Decimal, Pow10;
      var n := |w| - 1;
      FrontDigit(w[..n]);
      LastDigit(w);
      LastDigit(w[1..]);
      assert w[..n][1..] == w[1..][..n - 1];
      TenTimes(w[0] as int - '0' as int, n);
    }
  }

  lemma LastDigit(w: string)
    requires w != "" && forall i :: 0 <= i < |w| ==> Digit(w[i])
    ensures Decimal(w) == 10 * Decimal(w[..|w| - 1]) + (w[|w| - 1] as int - '0' as int)
  {
  }

  lemma TenTimes(d: int, n: nat)
    requires n > 0
    ensures d * Pow10(n) == 10 * (d * Pow10(n - 1))
  {
  }

  /** At most 63 characters of a number are converted, and no value exceeds the largest `long`. */
  lemma NumberLexed(strtod: string -> Lit, src: string, p: nat, w: string)
    requires Stands(src, p, w) && w != "" && forall i :: 0 <= i < |w| ==> Digit(w[i])
    requires p + |w| < |src| ==> !Digit(src[p + |w|]) && src[p + |w|] != '.'
    ensures var v := Value(if |w| <= 63 then w else w[..63]);
            var n := if v <= 9223372036854775807 then v else 9223372036854775807;
            Lex(strtod, src, p) == (IntTok(n), p + |w|)
  {
    hide Lex, Decimal, Value;
    LexDigits(strtod, src, p, w);
    DecimalIsValue(if |w| <= 63 then w else w[..63]);
  }

  lemma PointLexed(strtod: string -> Lit, src: string, p: nat, w: string, dot: nat)
    requires Stands(src, p, w) && 0 < dot < |w| && w[dot] == '.'
    requires forall i :: 0 <= i < |w| && i != dot ==> Digit(w[i])
    requires p + |w| < |src| ==> !Digit(src[p + |w|])
    ensures Lex(strtod, src, p) == (DblTok(strtod(if |w| <= 63 then w else w[..63])), p + |w|)
  {
    hide Lex;
    LexPoint(strtod, src, p, w, dot);
  }

  // ----- whole programs -----

  /** The end of a text: nothing, or a comment without its newline. */
  predicate IsEnd(more: string) { more == "" || ("//" <= more && '\n' !in more) }

  lemma EndIsBlank(strtod: string -> Lit, src: string, p: nat)
    requires p <= |src| && IsEnd(src[p..])
    ensures LexAll(strtod, src, p) == []
  {
    if p < |src| {
      assert src[p..][0] == src[p] && src[p..][1] == src[p + 1];
      assert forall i :: p <= i < |src| ==> src[i] == src[p..][i - p];
      UntilIs(src, p + 1, |src|, (c: char) => c == '\n');
    }
  }

  /** Every layout of a program's tokens that keeps them apart is parsed as the program. */
  lemma LaidRoundTrip(strtod: string -> Lit, dtext: Lit -> string, p: SProgram, lead: string, gaps: seq<string>,
                      more: string)
    requires PrintableProgram(p) && AllWritable(strtod, dtext, PrintProgram(p))
    requires IsGap(lead) && IsEnd(more)
    requires |gaps| == |PrintProgram(p)| && Separated(dtext, PrintProgram(p), gaps, more)
    ensures ParseProgram(LexAll(strtod, lead + Laid(dtext, PrintProgram(p), gaps, more), 0)) == Parsed(p, [])
  {
    hide PrintProgram, PrintableProgram, ParseProgram, AllWritable, Separated, LexAll, IsGap, IsEnd;
    var ts := PrintProgram(p);
    LexLaidAll(strtod, dtext, ts, lead, gaps, more);
    ParseProgramPrinted(p);
  }

  lemma LexLaidAll(strtod: string -> Lit, dtext: Lit -> string, ts: Tokens, lead: string, gaps: seq<string>,
                   more: string)
    requires AllWritable(strtod, dtext, ts) && IsGap(lead) && IsEnd(more)
    requires |gaps| == |ts| && Separated(dtext, ts, gaps, more)
    ensures LexAll(strtod, lead + Laid(dtext, ts, gaps, more), 0) == ts
  {
    hide LexAll, AllWritable, Separated, IsGap, IsEnd, Laid, SkipBlank;
    var text := Laid(dtext, ts, gaps, more);
    var src := lead + text;
    assert src[0..] == src;
    WordThenRest(src, 0, lead, text);
    GapSkipped(src, 0, lead);
    SameFromBlank(strtod, src, 0, |lead|);
    LexLaid(strtod, dtext, src, |lead|, ts, gaps, more);
    LaidEnds(dtext, ts, gaps, more);
    assert src[|src| - |more|..] == text[|text| - |more|..];
    EndIsBlank(strtod, src, |src| - |more|);
  }

  lemma {:induction false} LaidEnds(dtext: Lit -> string, ts: Tokens, gaps: seq<string>, more: string)
    requires |gaps| == |ts|
    ensures var text := Laid(dtext, ts, gaps, more); |more| <= |text| && text[|text| - |more|..] == more
  {
    hide TokenText;
    if ts != [] {
      LaidEnds(dtext, ts[1..], gaps[1..], more);
      var text, after := Laid(dtext, ts, gaps, more), Laid(dtext, ts[1..], gaps[1..], more);
      assert text[|text| - |after|..] == after;
      assert text[|text| - |more|..] == text[|text| - |after|..][|after| - |more|..];
    }
  }

  // ----- as few spaces as possible -----

  /** A space only where the next text would continue the token. */
  function TightGaps(dtext: Lit -> string, ts: Tokens): (gaps: seq<string>)
    ensures |gaps| == |ts|
  {
    if ts == [] then []
    else [TightGap(ts[0], if |ts| == 1 then "" else TokenText(dtext, ts[1]))] + TightGaps(dtext, ts[1..])
  }

  function TightGap(t: Token, next: string): string {
    if next == "" || Stops(t, next[0]) then "" else " "
  }

  lemma {:induction false} TightIsSeparated(strtod: string -> Lit, dtext: Lit -> string, ts: Tokens)
    requires AllWritable(strtod, dtext, ts)
    ensures Separated(dtext, ts, TightGaps(dtext, ts), "")
  {
    hide TokenText, Writable, Stops;
    if ts != [] {
      TightIsSeparated(strtod, dtext, ts[1..]);
      var gaps := TightGaps(dtext, ts);
      assert gaps[1..] == TightGaps(dtext, ts[1..]);
      SpaceIsGap();
      if |ts| > 1 { NextText(strtod, dtext, ts[1..], gaps[1..]); }
      SpaceStops(ts[0]);
    }
  }

  lemma SpaceIsGap()
    ensures IsGap(" ") && IsGap("")
  {
    assert " "[1..] == "";
  }

  lemma SpaceStops(t: Token)
    ensures Stops(t, ' ')
  {
  }

  lemma NextText(strtod: string -> Lit, dtext: Lit -> string, ts: Tokens, gaps: seq<string>)
    requires |gaps| == |ts| > 0 && Writable(strtod, dtext, ts[0])
    ensures var w, text := TokenText(dtext, ts[0]), Laid(dtext, ts, gaps, "");
            w != "" && text != "" && text[0] == w[0]
  {
    hide TokenText, Writable;
    FirstChar(strtod, dtext, ts[0]);
  }

  lemma TightRoundTrip(strtod: string -> Lit, dtext: Lit -> string, p: SProgram)
    requires PrintableProgram(p) && AllWritable(strtod, dtext, PrintProgram(p))
    ensures var ts := PrintProgram(p);
            ParseProgram(LexAll(strtod, Laid(dtext, ts, TightGaps(dtext, ts), ""), 0)) == Parsed(p, [])
  {
    hide PrintProgram, PrintableProgram, ParseProgram, AllWritable, Separated, LexAll;
    var ts := PrintProgram(p);
    TightIsSeparated(strtod, dtext, ts);
    SpaceIsGap();
    var text := Laid(dtext, ts, TightGaps(dtext, ts), "");
    assert "" + text == text;
    LaidRoundTrip(strtod, dtext, p, "", TightGaps(dtext, ts), "");
  }

  // ----- two texts -----

  ghost predicate LaidOut(dtext: Lit -> string, ts: Tokens, gaps: seq<string>, text: string) {
    |gaps| == |ts| && Separated(dtext, ts, gaps, "") && Laid(dtext, ts, gaps, "") == text
  }

  /** One more token in front. */
  lemma LaidBefore(dtext: Lit -> string, t: Token, ts: Tokens, g: string, gaps: seq<string>, text: string)
    requires LaidOut(dtext, ts, gaps, text) && IsGap(g) && (g + text == "" || Stops(t, (g + text)[0]))
    ensures LaidOut(dtext, [t] + ts, [g] + gaps, TokenText(dtext, t) + (g + text))
  {
    hide TokenText, IsGap, Stops;
    assert ([t] + ts)[1..] == ts && ([g] + gaps)[1..] == gaps;
  }

  lemma GapStops(t: Token, g: string)
    requires IsGap(g) && g != "" && (t.KwInt? || t.KwReturn? || t.Ident? || t.IntTok?)
    ensures Stops(t, g[0])
  {
    if !White(g[0]) {
      var n: nat :| LineComment(g, n) && IsGap(g[n..]);
      assert g[..2][0] == g[0];
    }
  }

  /** The rest of the program from `return` on. */
  lemma BodyLaid(dtext: Lit -> string, r: string, one: string, semi: string, end: string)
    requires IsGap(r) && r != "" && IsGap(one) && IsGap(semi) && IsGap(end)
    ensures LaidOut(dtext, [KwReturn] + ([IntTok(1)] + ([Semi] + ([RBrace] + []))),
                    [r] + ([one] + ([semi] + ([end] + []))),
                    "return" + (r + ("1" + (one + (";" + (semi + ("}" + (end + ""))))))))
  {
    hide IsGap, LaidOut;
    assert LaidOut(dtext, [], [], "") by { LaidNothing(dtext); }
    GapStops(KwReturn, r);
    if one != "" { GapStops(IntTok(1), one); }
    assert Digits(1) == "1";
    var ts, gaps, text := [RBrace] + [], [end] + [], "}" + (end + "");
    LaidBefore(dtext, RBrace, [], end, [], "");
    LaidBefore(dtext, Semi, ts, semi, gaps, text);
    ts, gaps, text := [Semi] + ts, [semi] + gaps, ";" + (semi + text);
    LaidBefore(dtext, IntTok(1), ts, one, gaps, text);
    ts, gaps, text := [IntTok(1)] + ts, [one] + gaps, "1" + (one + text);
    LaidBefore(dtext, KwReturn, ts, r, gaps, text);
  }

  lemma LaidNothing(dtext: Lit -> string)
    ensures LaidOut(dtext, [], [], "")
  {
  }

  const MAIN_TOKENS: Tokens :=
    [KwInt] + ([Ident("main")] + ([LParen] + ([RParen] + ([LBrace] +
    ([KwReturn] + ([IntTok(1)] + ([Semi] + ([RBrace] + []))))))))

  /** `int main() { return 1; }` with any gap behind each of its tokens, not empty behind `int` and `return`. */
  lemma MainLaid(dtext: Lit -> string, g: seq<string>)
    requires |g| == 9 && (forall i :: 0 <= i < 9 ==> IsGap(g[i])) && g[0] != "" && g[5] != ""
    ensures LaidOut(dtext, MAIN_TOKENS, g, "int" + (g[0] + ("main" + (g[1] + ("(" + (g[2] + (")" + (g[3] +
                    ("{" + (g[4] + ("return" + (g[5] + ("1" + (g[6] + (";" + (g[7] + ("}" + (g[8] + ""))))))))))))))))))
  {
    hide IsGap, LaidOut;
    BodyLaid(dtext, g[5], g[6], g[7], g[8]);
    var ts := [KwReturn] + ([IntTok(1)] + ([Semi] + ([RBrace] + [])));
    var gaps := [g[5]] + ([g[6]] + ([g[7]] + ([g[8]] + [])));
    var text := "return" + (g[5] + ("1" + (g[6] + (";" + (g[7] + ("}" + (g[8] + "")))))));
    LaidBefore(dtext, LBrace, ts, g[4], gaps, text);
    ts, gaps, text := [LBrace] + ts, [g[4]] + gaps, "{" + (g[4] + text);
    LaidBefore(dtext, RParen, ts, g[3], gaps, text);
    ts, gaps, text := [RParen] + ts, [g[3]] + gaps, ")" + (g[3] + text);
    LaidBefore(dtext, LParen, ts, g[2], gaps, text);
    ts, gaps, text := [LParen] + ts, [g[2]] + gaps, "(" + (g[2] + text);
    if g[1] != "" { GapStops(Ident("main"), g[1]); }
    LaidBefore(dtext, Ident("main"), ts, g[1], gaps, text);
    ts, gaps, text := [Ident("main")] + ts, [g[1]] + gaps, "main" + (g[1] + text);
    GapStops(KwInt, g[0]);
    LaidBefore(dtext, KwInt, ts, g[0], gaps, text);
    assert g == [g[0]] + gaps;
  }

  const TIGHT := "int main() { return 1; }"
  const SPREAD := "// entry\nint\tmain()// none\n{\n  return 1;\n}\n"

  lemma TightText()
    ensures TIGHT == "int" + (" " + ("main" + ("" + ("(" + ("" + (")" + (" " +
                     ("{" + (" " + ("return" + (" " + ("1" + ("" + (";" + (" " + ("}" + ("" + "")))))))))))))))))
  {
  }

  lemma SpreadText()
    ensures SPREAD == "// entry\n" + ("int" + ("\t" + ("main" + ("" + ("(" + ("" + (")" + ("// none\n" + ("{" +
                      ("\n  " + ("return" + (" " + ("1" + ("" + (";" + ("\n" + ("}" + ("\n" + ""))))))))))))))))))
  {
  }

  lemma Gaps()
    ensures IsGap("") && IsGap(" ") && IsGap("\t") && IsGap("\n") && IsGap("\n  ")
    ensures IsGap("// none\n") && IsGap("// entry\n")
  {
    assert " "[1..] == "" && "\t"[1..] == "" && "\n"[1..] == "" && "\n  "[1..] == "  " && "  "[1..] == " ";
    assert LineComment("// none\n", 8) && "// none\n"[8..] == "";
    assert LineComment("// entry\n", 9) && "// entry\n"[9..] == "";
  }

  /** Both texts are the program that returns 1. */
  lemma OrdinaryTexts(strtod: string -> Lit, dtext: Lit -> string)
    ensures ParseProgram(LexAll(strtod, TIGHT, 0)) == Parsed([MAIN], [])
    ensures ParseProgram(LexAll(strtod, SPREAD, 0)) == Parsed([MAIN], [])
  {
    hide PrintProgram, PrintableProgram, ParseProgram, AllWritable, Separated, LexAll, IsGap, Laid;
    Gaps();
    PrintedMain();
    MainIsWritable(strtod, dtext);
    assert PrintProgram([MAIN]) == MAIN_TOKENS;
    var tight := [" ", "", "", " ", " ", " ", "", " ", ""];
    var spread := ["\t", "", "", "// none\n", "\n  ", " ", "", "\n", "\n"];
    MainLaid(dtext, tight);
    MainLaid(dtext, spread);
    TightText();
    SpreadText();
    LaidRoundTrip(strtod, dtext, [MAIN], "", tight, "");
    assert "" + TIGHT == TIGHT;
    LaidRoundTrip(strtod, dtext, [MAIN], "// entry\n", spread, "");
  }

  /** The ordinary text is compiled, and the file does what the program means. */
  method CompileOrdinary(fp: Float, strtod: string -> Lit, dtext: Lit -> string, hash: Name -> nat)
    returns (r: Option<seq<Byte>>)
    requires EqIsIdentityOnLiterals(fp)
    ensures r.Some? && SameBehaviour(TextMeaning(fp, [MAIN]), FileRun(fp, r.value))
  {
    hide LexAll, ParseProgram, ElabProgram, SameBehaviour, TextMeaning, FileRun, Compilable, CompiledFile;
    OrdinaryTexts(strtod, dtext);
    SmallIsAccepted("main");
    WithMainItIsTheSame(fp);
    r := CompileText(fp, strtod, hash, TIGHT);
  }
}
