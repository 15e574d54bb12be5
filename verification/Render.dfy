/** Writing tokens as text and lexing them back: with the grammar's round trip, a source tree survives being
    printed, lexed and parsed.  The characters of names, numbers and blanks are written out here, apart from the
    lexer's own classes. */
module Render {
  import opened Values
  import opened Ast
  import opened Surface
  import opened Syntax
  import opened Lexer
  import opened Unparse

  function OpText(op: Op): string {
    match op
    case Add => "+"
    case Sub => "-"
    case Mul => "*"
    case Div => "/"
    case Lt => "<"
    case Gt => ">"
    case Le => "<="
    case Ge => ">="
    case Eq => "=="
    case Ne => "!="
  }

  // ----- characters -----

  predicate Letter(c: char) { 'a' <= c <= 'z' || 'A' <= c <= 'Z' || c == '_' }

  predicate Digit(c: char) { '0' <= c <= '9' }

  /** Space, tab, newline, carriage return, vertical tab, form feed. */
  predicate White(c: char) {
    c == ' ' || c == '\t' || c == '\n' || c == '\r' || c == '\U{B}' || c == '\U{C}'
  }

  const KEYWORDS: seq<string> := ["int", "double", "if", "else", "while", "return", "print"]

  /** A character that cannot continue the token, so that its text may end before it. */
  predicate Stops(t: Token, c: char) {
    match t
    case IntTok(_) => !Digit(c) && c != '.'
    case DblTok(_) => !Digit(c)
    case Ident(_) | KwInt | KwDouble | KwIf | KwElse | KwWhile | KwReturn | KwPrint => !Letter(c) && !Digit(c)
    case Sym(Lt) | Sym(Gt) | Equals => c != '='
    case Sym(Div) => c != '/'
    case _ => true
  }

  /** The text may end, or go on with a character that does not continue the token. */
  predicate Behind(t: Token, src: string, q: nat) {
    q < |src| ==> Stops(t, src[q])
  }

  function Digits(n: nat): (s: string)
    ensures s != "" && forall i :: 0 <= i < |s| ==> Digit(s[i])
  {
    var last := [('0' as int + n % 10) as char];
    if n < 10 then last else Digits(n / 10) + last
  }

  /** Text of a token; `dtext` writes doubles. */
  function TokenText(dtext: Lit -> string, t: Token): string {
    match t
    case Eof => ""
    case IntTok(i) => if i >= 0 then Digits(i) else ""
    case DblTok(d) => dtext(d)
    case Ident(x) => x
    case KwInt => "int"
    case KwDouble => "double"
    case KwIf => "if"
    case KwElse => "else"
    case KwWhile => "while"
    case KwReturn => "return"
    case KwPrint => "print"
    case LParen => "("
    case RParen => ")"
    case LBrace => "{"
    case RBrace => "}"
    case LBracket => "["
    case RBracket => "]"
    case Semi => ";"
    case Comma => ","
    case Equals => "="
    case Sym(op) => OpText(op)
  }

  /** A number text the lexer takes for a double. */
  predicate LooksDouble(s: string, dot: nat) {
    && 0 < dot < |s| < 64 && s[dot] == '.'
    && forall i :: 0 <= i < |s| && i != dot ==> Digit(s[i])
  }

  predicate IsName(x: string) {
    x != "" && Letter(x[0]) && (forall i :: 0 <= i < |x| ==> Letter(x[i]) || Digit(x[i])) && x !in KEYWORDS
  }

  /** The host reads back the doubles it writes. */
  ghost predicate ReadsBack(strtod: string -> Lit, dtext: Lit -> string, d: Lit) {
    strtod(dtext(d)) == d && exists dot :: LooksDouble(dtext(d), dot)
  }

  /** Tokens that have a text. */
  ghost predicate Writable(strtod: string -> Lit, dtext: Lit -> string, t: Token) {
    match t
    case Eof => false
    case IntTok(i) => 0 <= i < TWO_63
    case DblTok(d) => ReadsBack(strtod, dtext, d)
    case Ident(x) => IsName(x)
    case _ => true
  }

  ghost predicate AllWritable(strtod: string -> Lit, dtext: Lit -> string, ts: Tokens) {
    forall i :: 0 <= i < |ts| ==> Writable(strtod, dtext, ts[i])
  }

  /** Tokens separated, and ended, by single spaces. */
  function Text(dtext: Lit -> string, ts: Tokens): string {
    if ts == [] then "" else TokenText(dtext, ts[0]) + " " + Text(dtext, ts[1..])
  }

  // ----- numbers -----

  lemma {:induction false} DecimalDigits(n: nat)
    ensures Decimal(Digits(n)) == n
  {
    var s := Digits(n);
    if n < 10 {
      assert s[..|s| - 1] == "";
    } else {
      DecimalDigits(n / 10);
      assert s[..|s| - 1] == Digits(n / 10);
    }
  }

  function Pow10(k: nat): nat { if k == 0 then 1 else 10 * Pow10(k - 1) }

  lemma {:induction false} DigitsLength(n: nat, k: nat)
    requires k > 0 && n < Pow10(k)
    ensures |Digits(n)| <= k
  {
    if n >= 10 { DigitsLength(n / 10, k - 1); }
  }

  lemma LongFits(n: nat)
    requires n < TWO_63
    ensures |Digits(n)| <= 19
  {
    assert Pow10(5) == 100_000;
    assert Pow10(10) == 100_000 * Pow10(5);
    assert Pow10(15) == 100_000 * Pow10(10);
    assert Pow10(19) == 10_000 * Pow10(15);
    DigitsLength(n, 19);
  }

  // ----- one token -----

  lemma {:induction false} UntilIs(src: string, p: nat, q: nat, stop: char -> bool)
    requires p <= q <= |src| && (q < |src| ==> stop(src[q])) && forall i :: p <= i < q ==> !stop(src[i])
    ensures Until(src, p, stop) == q
    decreases q - p
  {
    if p < q { UntilIs(src, p + 1, q, stop); }
  }

  /** `w` stands at `p`. */
  ghost predicate Stands(src: string, p: nat, w: string) {
    p + |w| <= |src| && src[p..p + |w|] == w
  }

  lemma CharAt(src: string, p: nat, w: string, i: nat)
    requires Stands(src, p, w) && i < |w|
    ensures src[p + i] == w[i]
  {
    assert src[p + i] == src[p..p + |w|][i];
  }

  lemma LexName(strtod: string -> Lit, src: string, p: nat, x: string)
    requires Stands(src, p, x) && x != "" && Letter(x[0]) && forall i :: 0 <= i < |x| ==> Letter(x[i]) || Digit(x[i])
    requires Behind(Ident(x), src, p + |x|)
    ensures Lex(strtod, src, p) == (Keyword(x), p + |x|)
  {
    hide Keyword;
    CharAt(src, p, x, 0);
    forall i | p + 1 <= i < p + |x| ensures IsIdent(src[i]) { CharAt(src, p, x, i - p); }
    UntilIs(src, p + 1, p + |x|, (d: char) => !IsIdent(d));
  }

  lemma LexDigits(strtod: string -> Lit, src: string, p: nat, w: string)
    requires Stands(src, p, w) && w != "" && forall i :: 0 <= i < |w| ==> Digit(w[i])
    requires p + |w| < |src| ==> !Digit(src[p + |w|]) && src[p + |w|] != '.'
    ensures Lex(strtod, src, p) == (IntTok(ToLong(Cut(w))), p + |w|)
  {
    hide Decimal, ToLong;
    CharAt(src, p, w, 0);
    forall i | p + 1 <= i < p + |w| ensures IsDigit(src[i]) { CharAt(src, p, w, i - p); }
    UntilIs(src, p + 1, p + |w|, (d: char) => !IsDigit(d));
  }

  lemma LexInt(strtod: string -> Lit, src: string, p: nat, n: nat)
    requires Stands(src, p, Digits(n)) && n < TWO_63 && Behind(IntTok(n), src, p + |Digits(n)|)
    ensures Lex(strtod, src, p) == (IntTok(n), p + |Digits(n)|)
  {
    hide Digits, Decimal;
    LexDigits(strtod, src, p, Digits(n));
    DecimalDigits(n);
    LongFits(n);
  }

  /** Digits, a point, digits; a text of 64 characters or more is cut before it is converted. */
  lemma LexPoint(strtod: string -> Lit, src: string, p: nat, w: string, dot: nat)
    requires Stands(src, p, w) && 0 < dot < |w| && w[dot] == '.'
    requires forall i :: 0 <= i < |w| && i != dot ==> Digit(w[i])
    requires p + |w| < |src| ==> !Digit(src[p + |w|])
    ensures Lex(strtod, src, p) == (DblTok(strtod(Cut(w))), p + |w|)
  {
    CharAt(src, p, w, 0);
    CharAt(src, p, w, dot);
    forall i | p + 1 <= i < p + |w| && i != p + dot ensures IsDigit(src[i]) { CharAt(src, p, w, i - p); }
    UntilIs(src, p + 1, p + dot, (d: char) => !IsDigit(d));
    UntilIs(src, p + dot + 1, p + |w|, (d: char) => !IsDigit(d));
  }

  lemma LexDouble(strtod: string -> Lit, src: string, p: nat, w: string, dot: nat)
    requires Stands(src, p, w) && LooksDouble(w, dot) && Behind(DblTok(strtod(w)), src, p + |w|)
    ensures Lex(strtod, src, p) == (DblTok(strtod(w)), p + |w|)
  {
    LexPoint(strtod, src, p, w, dot);
  }

  lemma LexPunct(strtod: string -> Lit, dtext: Lit -> string, src: string, p: nat, t: Token)
    requires t.LParen? || t.RParen? || t.LBrace? || t.RBrace? || t.LBracket? || t.RBracket? || t.Semi? || t.Comma?
    requires Stands(src, p, TokenText(dtext, t))
    ensures Lex(strtod, src, p) == (t, p + 1)
  {
    hide Keyword, Decimal, Digits, Until;
    CharAt(src, p, TokenText(dtext, t), 0);
  }

  lemma LexOp(strtod: string -> Lit, src: string, p: nat, op: Op)
    requires Stands(src, p, OpText(op)) && Behind(Sym(op), src, p + |OpText(op)|)
    ensures Lex(strtod, src, p) == (Sym(op), p + |OpText(op)|)
  {
    hide Keyword, Decimal, Digits, Until;
    var w := OpText(op);
    CharAt(src, p, w, 0);
    if |w| == 2 { CharAt(src, p, w, 1); }
  }

  lemma LexEquals(strtod: string -> Lit, src: string, p: nat)
    requires Stands(src, p, "=") && Behind(Equals, src, p + 1)
    ensures Lex(strtod, src, p) == (Equals, p + 1)
  {
    hide Keyword, Decimal, Digits, Until;
    CharAt(src, p, "=", 0);
  }

  lemma LexWord(strtod: string -> Lit, dtext: Lit -> string, src: string, p: nat, t: Token)
    requires t.KwInt? || t.KwDouble? || t.KwIf? || t.KwElse? || t.KwWhile? || t.KwReturn? || t.KwPrint?
    requires Stands(src, p, TokenText(dtext, t)) && Behind(t, src, p + |TokenText(dtext, t)|)
    ensures Lex(strtod, src, p) == (t, p + |TokenText(dtext, t)|)
  {
    var w := TokenText(dtext, t);
    assert forall i :: 0 <= i < |w| ==> Letter(w[i]);
    LexName(strtod, src, p, w);
  }

  /** Every token is lexed back from its text, wherever the text behind it does not continue it. */
  lemma LexToken(strtod: string -> Lit, dtext: Lit -> string, src: string, p: nat, t: Token)
    requires Writable(strtod, dtext, t) && Stands(src, p, TokenText(dtext, t))
    requires Behind(t, src, p + |TokenText(dtext, t)|)
    ensures Lex(strtod, src, p) == (t, p + |TokenText(dtext, t)|)
  {
    hide Stands, Lex, Digits;
    match t
    case IntTok(i) => LexInt(strtod, src, p, i);
    case DblTok(d) =>
      var dot: nat :| LooksDouble(dtext(d), dot);
      LexDouble(strtod, src, p, dtext(d), dot);
    case Ident(x) => LexName(strtod, src, p, x);
    case KwInt => LexWord(strtod, dtext, src, p, t);
    case KwDouble => LexWord(strtod, dtext, src, p, t);
    case KwIf => LexWord(strtod, dtext, src, p, t);
    case KwElse => LexWord(strtod, dtext, src, p, t);
    case KwWhile => LexWord(strtod, dtext, src, p, t);
    case KwReturn => LexWord(strtod, dtext, src, p, t);
    case KwPrint => LexWord(strtod, dtext, src, p, t);
    case Sym(op) => LexOp(strtod, src, p, op);
    case Equals => LexEquals(strtod, src, p);
    case _ => LexPunct(strtod, dtext, src, p, t);
  }

  // ----- gaps -----

  /** A comment with its newline. */
  ghost predicate LineComment(g: string, n: nat) {
    3 <= n <= |g| && g[..2] == "//" && g[n - 1] == '\n' && forall i :: 2 <= i < n - 1 ==> g[i] != '\n'
  }

  /** White space and comments, in any order and number. */
  ghost predicate IsGap(g: string)
    decreases |g|
  {
    || g == ""
    || (White(g[0]) && IsGap(g[1..]))
    || exists n: nat :: LineComment(g, n) && IsGap(g[n..])
  }

  lemma StandsFrom(src: string, p: nat, w: string, n: nat)
    requires Stands(src, p, w) && n <= |w|
    ensures Stands(src, p + n, w[n..]) && Stands(src, p, w[..n])
  {
    assert src[p..p + |w|][n..] == src[p + n..p + |w|];
    assert src[p..p + |w|][..n] == src[p..p + n];
  }

  /** A gap changes nothing for what stands behind it. */
  lemma {:induction false} GapSkipped(src: string, p: nat, g: string)
    requires Stands(src, p, g) && IsGap(g)
    ensures SkipBlank(src, p) == SkipBlank(src, p + |g|)
    decreases |g|
  {
    hide Stands, SkipBlank;
    if g != "" {
      if White(g[0]) && IsGap(g[1..]) {
        StandsFrom(src, p, g, 1);
        WhiteSkipped(src, p, g);
        GapSkipped(src, p + 1, g[1..]);
      } else {
        var n: nat :| LineComment(g, n) && IsGap(g[n..]);
        StandsFrom(src, p, g, n);
        CommentSkipped(src, p, g, n);
        GapSkipped(src, p + n, g[n..]);
      }
    }
  }

  lemma WhiteSkipped(src: string, p: nat, g: string)
    requires Stands(src, p, g) && g != "" && White(g[0])
    ensures p < |src| && SkipBlank(src, p) == SkipBlank(src, p + 1)
  {
    CharAt(src, p, g, 0);
  }

  lemma CommentSkipped(src: string, p: nat, g: string, n: nat)
    requires Stands(src, p, g) && LineComment(g, n)
    ensures p + n <= |src| && SkipBlank(src, p) == SkipBlank(src, p + n)
  {
    assert g[..2][0] == g[0] && g[..2][1] == g[1];
    forall i | p <= i < p + n ensures src[i] == g[i - p] { CharAt(src, p, g, i - p); }
    UntilIs(src, p + 1, p + n - 1, (c: char) => c == '\n');
  }

  // ----- whole texts -----

  /** No token begins with a blank, and a slash is never followed by one more. */
  lemma NoBlank(strtod: string -> Lit, dtext: Lit -> string, src: string, p: nat, t: Token)
    requires Writable(strtod, dtext, t) && Stands(src, p, TokenText(dtext, t))
    requires Behind(t, src, p + |TokenText(dtext, t)|)
    ensures TokenText(dtext, t) != "" && SkipBlank(src, p) == p
  {
    hide Keyword, Lex, Decimal;
    var w := TokenText(dtext, t);
    FirstChar(strtod, dtext, t);
    CharAt(src, p, w, 0);
    if |w| > 1 { CharAt(src, p, w, 1); }
  }

  lemma FirstChar(strtod: string -> Lit, dtext: Lit -> string, t: Token)
    requires Writable(strtod, dtext, t)
    ensures var w := TokenText(dtext, t); w != "" && !IsSpace(w[0]) && (w[0] == '/' ==> t == Sym(Div))
  {
    hide Keyword;
    if t.DblTok? {
      var dot: nat :| LooksDouble(dtext(t.d), dot);
    }
  }

  /** Token texts with a gap, which may be empty, behind each, and `more` behind all. */
  function Laid(dtext: Lit -> string, ts: Tokens, gaps: seq<string>, more: string): string
    requires |gaps| == |ts|
  {
    if ts == [] then more else TokenText(dtext, ts[0]) + (gaps[0] + Laid(dtext, ts[1..], gaps[1..], more))
  }

  /** No token's text is continued by the character behind it. */
  ghost predicate Separated(dtext: Lit -> string, ts: Tokens, gaps: seq<string>, more: string)
    requires |gaps| == |ts|
  {
    ts == [] ||
    (&& IsGap(gaps[0])
     && (var after := gaps[0] + Laid(dtext, ts[1..], gaps[1..], more); after == "" || Stops(ts[0], after[0]))
     && Separated(dtext, ts[1..], gaps[1..], more))
  }

  /** Tokens laid out apart are lexed back, and lexing goes on right behind them. */
  lemma {:induction false} LexLaid(strtod: string -> Lit, dtext: Lit -> string, src: string, p: nat, ts: Tokens,
                                   gaps: seq<string>, more: string)
    requires |gaps| == |ts| && p <= |src| && src[p..] == Laid(dtext, ts, gaps, more)
    requires AllWritable(strtod, dtext, ts) && Separated(dtext, ts, gaps, more)
    ensures |more| <= |src| && LexAll(strtod, src, p) == ts + LexAll(strtod, src, |src| - |more|)
    decreases |ts|
  {
    hide Lex, LexAll, SkipBlank, TokenText, Writable, Stands, IsGap, Stops;
    if ts != [] {
      var w, g := TokenText(dtext, ts[0]), gaps[0];
      var after := Laid(dtext, ts[1..], gaps[1..], more);
      var q := p + |w|;
      WordThenRest(src, p, w, g + after);
      WordThenRest(src, q, g, after);
      NoBlank(strtod, dtext, src, p, ts[0]);
      LexToken(strtod, dtext, src, p, ts[0]);
      LexLaid(strtod, dtext, src, q + |g|, ts[1..], gaps[1..], more);
      GapSkipped(src, q, g);
      SameFromBlank(strtod, src, q, q + |g|);
      OneToken(strtod, src, p, ts[0], q);
      assert ts == [ts[0]] + ts[1..];
    }
  }

  lemma WordThenRest(src: string, p: nat, w: string, more: string)
    requires p <= |src| && src[p..] == w + more
    ensures Stands(src, p, w) && src[p + |w|..] == more && (p + |w| < |src| ==> more != "" && src[p + |w|] == more[0])
  {
    var q := p + |w|;
    assert src[p..q] == src[p..][..|w|] == w;
    assert src[q..] == src[p..][|w|..] == more;
    assert q < |src| ==> src[q] == src[q..][0];
  }

  lemma SameFromBlank(strtod: string -> Lit, src: string, p: nat, q: nat)
    requires p <= |src| && q <= |src| && SkipBlank(src, p) == SkipBlank(src, q)
    ensures LexAll(strtod, src, p) == LexAll(strtod, src, q)
  {
    hide Lex, SkipBlank;
  }

  lemma OneToken(strtod: string -> Lit, src: string, p: nat, t: Token, q: nat)
    requires p < |src| && SkipBlank(src, p) == p && Lex(strtod, src, p) == (t, q)
    ensures LexAll(strtod, src, p) == [t] + LexAll(strtod, src, q)
  {
    hide Lex, SkipBlank;
  }

  // ----- single spaces -----

  function Spaces(n: nat): seq<string> { if n == 0 then [] else [" "] + Spaces(n - 1) }

  lemma {:induction false} TextIsLaid(dtext: Lit -> string, ts: Tokens, more: string)
    ensures |Spaces(|ts|)| == |ts| && Text(dtext, ts) + more == Laid(dtext, ts, Spaces(|ts|), more)
    ensures Separated(dtext, ts, Spaces(|ts|), more)
  {
    hide TokenText;
    if ts != [] {
      TextIsLaid(dtext, ts[1..], more);
      assert Spaces(|ts|)[1..] == Spaces(|ts| - 1);
      assert IsGap(" ") by { assert " "[1..] == ""; }
    }
  }

  /** Written tokens are lexed back, and lexing goes on right behind them. */
  lemma LexTextBefore(strtod: string -> Lit, dtext: Lit -> string, src: string, p: nat, ts: Tokens, more: string)
    requires p <= |src| && src[p..] == Text(dtext, ts) + more
    requires AllWritable(strtod, dtext, ts)
    ensures p + |Text(dtext, ts)| <= |src|
    ensures LexAll(strtod, src, p) == ts + LexAll(strtod, src, p + |Text(dtext, ts)|)
  {
    hide LexAll, Text, Laid, Separated, AllWritable;
    TextIsLaid(dtext, ts, more);
    LexLaid(strtod, dtext, src, p, ts, Spaces(|ts|), more);
    assert |src[p..]| == |src| - p;
  }

  lemma LexText(strtod: string -> Lit, dtext: Lit -> string, src: string, p: nat, ts: Tokens)
    requires p <= |src| && src[p..] == Text(dtext, ts)
    requires AllWritable(strtod, dtext, ts)
    ensures LexAll(strtod, src, p) == ts
  {
    hide LexAll, Text, AllWritable;
    assert Text(dtext, ts) + "" == Text(dtext, ts);
    LexTextBefore(strtod, dtext, src, p, ts, "");
    assert |src[p..]| == |src| - p;
    NoText(strtod, src, |src|);
  }

  lemma NoText(strtod: string -> Lit, src: string, p: nat)
    requires p <= |src| && src[p..] == ""
    ensures LexAll(strtod, src, p) == []
  {
  }

  /** Printing a program, writing it as text, lexing and parsing gives the program back. */
  lemma TextRoundTrip(strtod: string -> Lit, dtext: Lit -> string, p: SProgram)
    requires PrintableProgram(p)
    requires AllWritable(strtod, dtext, PrintProgram(p))
    ensures ParseProgram(LexAll(strtod, Text(dtext, PrintProgram(p)), 0)) == Parsed(p, [])
  {
    hide PrintProgram, ParseProgram, AllWritable;
    var src := Text(dtext, PrintProgram(p));
    assert src[0..] == src;
    LexText(strtod, dtext, src, 0, PrintProgram(p));
    ParseProgramPrinted(p);
  }
}
