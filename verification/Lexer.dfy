/** From characters to tokens: the pure token sequence of a source text, and the lexer that appends tokens to
    a growing array on demand. */
module Lexer {
  import opened Values
  import opened Ast
  import opened Surface
  import opened Syntax

  predicate IsSpace(c: char) { c == ' ' || '\t' <= c <= '\r' }

  predicate IsDigit(c: char) { '0' <= c <= '9' }

  predicate IsAlpha(c: char) { 'a' <= c <= 'z' || 'A' <= c <= 'Z' || c == '_' }

  predicate IsIdent(c: char) { IsAlpha(c) || IsDigit(c) }

  /** First position from `p` on where `stop` holds, or the end. */
  function Until(src: string, p: nat, stop: char -> bool): (q: nat)
    requires p <= |src|
    ensures p <= q <= |src|
    ensures forall i :: p <= i < q ==> !stop(src[i])
    ensures q < |src| ==> stop(src[q])
    decreases |src| - p
  {
    if p == |src| || stop(src[p]) then p else Until(src, p + 1, stop)
  }

  /** Past white space and `//` comments. */
  function SkipBlank(src: string, p: nat): (q: nat)
    requires p <= |src|
    ensures p <= q <= |src|
    decreases |src| - p
  {
    if p < |src| && IsSpace(src[p]) then SkipBlank(src, p + 1)
    else if p + 1 < |src| && src[p] == '/' && src[p + 1] == '/' then SkipBlank(src, LineEnd(src, p + 1))
    else p
  }

  function LineEnd(src: string, p: nat): (q: nat)
    requires p <= |src|
    ensures p <= q <= |src|
  {
    Until(src, p, (c: char) => c == '\n')
  }

  function Keyword(s: string): Token {
    if s == "int" then KwInt
    else if s == "double" then KwDouble
    else if s == "if" then KwIf
    else if s == "else" then KwElse
    else if s == "while" then KwWhile
    else if s == "return" then KwReturn
    else if s == "print" then KwPrint
    else Ident(s)
  }

  function DigitValue(c: char): nat { if IsDigit(c) then c as int - '0' as int else 0 }

  /** Decimal value of a string of digits. */
  function Decimal(s: string): nat {
    if s == "" then 0 else 10 * Decimal(s[..|s| - 1]) + DigitValue(s[|s| - 1])
  }

  /** `strtol`: saturates at the largest `long`. */
  function ToLong(s: string): nat { if Decimal(s) < TWO_63 then Decimal(s) else TWO_63 - 1 }

  /** Number text is copied to a buffer of 64 characters before conversion. */
  function Cut(s: string): string { if |s| < 64 then s else s[..63] }

  /** One token from a position that is neither blank nor the end, and the position after it. */
  function Lex(strtod: string -> Lit, src: string, p: nat): (r: (Token, nat))
    requires p < |src|
    ensures p < r.1 <= |src|
  {
    var c := src[p];
    var followed := p + 1 < |src| && src[p + 1] == '=';
    if IsAlpha(c) then
      var q := Until(src, p + 1, (d: char) => !IsIdent(d));
      (Keyword(src[p..q]), q)
    else if IsDigit(c) then
      var q := Until(src, p + 1, (d: char) => !IsDigit(d));
      if q < |src| && src[q] == '.' then
        var e := Until(src, q + 1, (d: char) => !IsDigit(d));
        (DblTok(strtod(Cut(src[p..e]))), e)
      else (IntTok(ToLong(Cut(src[p..q]))), q)
    else if c == '<' then if followed then (Sym(Le), p + 2) else (Sym(Lt), p + 1)
    else if c == '>' then if followed then (Sym(Ge), p + 2) else (Sym(Gt), p + 1)
    else if c == '=' then if followed then (Sym(Eq), p + 2) else (Equals, p + 1)
    else if c == '!' && followed then (Sym(Ne), p + 2)
    else (Punct(c), p + 1)
  }

  /** A one-character token; an unexpected character reads as end of input. */
  function Punct(c: char): Token {
    match c
    case '(' => LParen
    case ')' => RParen
    case '{' => LBrace
    case '}' => RBrace
    case '[' => LBracket
    case ']' => RBracket
    case ';' => Semi
    case ',' => Comma
    case '+' => Sym(Add)
    case '-' => Sym(Sub)
    case '*' => Sym(Mul)
    case '/' => Sym(Div)
    case _ => Eof
  }

  /** All tokens from position `p` on. */
  function LexAll(strtod: string -> Lit, src: string, p: nat): Tokens
    requires p <= |src|
    decreases |src| - p
  {
    var q := SkipBlank(src, p);
    if q == |src| then [] else var r := Lex(strtod, src, q); [r.0] + LexAll(strtod, src, r.1)
  }

  /** The tokens from number `k` on. */
  function From(ts: Tokens, k: nat): Tokens { if k <= |ts| then ts[k..] else [] }

  lemma FromNext(ts: Tokens, k: nat)
    ensures From(ts, k + 1) == Tail(From(ts, k))
  {
  }

  // ----- how the token array grows -----

  /** Length of the array once it has taken `n` tokens: a full array doubles before it takes one more. */
  function Capacity(n: nat): (c: nat)
    ensures n <= c && 256 <= c && (n <= 256 ==> c == 256)
  {
    if n == 0 then 256 else if Capacity(n - 1) < n then 2 * Capacity(n - 1) else Capacity(n - 1)
  }

  /** `n` tokens fill the array. */
  predicate Full(n: nat) { Capacity(n) == n }

  function Doubled(j: nat): nat { if j == 0 then 256 else 2 * Doubled(j - 1) }

  lemma CapacityNext(n: nat)
    ensures Capacity(n + 1) == if Full(n) then 2 * n else Capacity(n)
  {
  }

  lemma {:induction false} DoubledGrows(i: nat, j: nat)
    requires i <= j
    ensures 0 < Doubled(i) <= Doubled(j)
  {
    if i < j { DoubledGrows(i, j - 1); } else if i > 0 { DoubledGrows(i - 1, i - 1); }
  }

  lemma {:induction false} CapacityIs(n: nat) returns (j: nat)
    ensures Capacity(n) == Doubled(j) && (j > 0 ==> Doubled(j - 1) < n)
  {
    if n == 0 {
      j := 0;
    } else {
      j := CapacityIs(n - 1);
      if Doubled(j) < n { j := j + 1; }
    }
  }

  /** The array is full at 256, 512, 1024, ... tokens. */
  lemma FullIff(n: nat)
    ensures Full(n) <==> exists j :: n == Doubled(j)
  {
    var j := CapacityIs(n);
    forall i | n == Doubled(i) ensures Full(n) {
      if i < j { DoubledGrows(i, j - 1); } else { DoubledGrows(j, i); }
    }
  }

  class TokenSource {
    const strtod: string -> Lit
    const src: string
    var pos: nat
    var toks: array<Token>
    var ntok: nat

    /** The pure token sequence. */
    ghost function All(): Tokens { LexAll(strtod, src, 0) }

    ghost predicate Valid()
      reads this, toks
    {
      && pos <= |src| && toks.Length == Capacity(ntok)
      && LexAll(strtod, src, pos) == From(All(), ntok)
      && forall i :: 0 <= i < ntok ==> toks[i] == Head(From(All(), i))
    }

    constructor (strtod: string -> Lit, src: string)
      ensures Valid() && ntok == 0 && fresh(toks) && this.strtod == strtod && this.src == src
    {
      this.strtod := strtod;
      this.src := src;
      pos := 0;
      toks := new Token[256](_ => Eof);
      ntok := 0;
    }

    /** The token at index `k`. */
    function Tok(k: nat): (t: Token)
      reads this, toks
      requires Valid() && k < ntok
      ensures t == Head(From(All(), k))
    {
      toks[k]
    }

    /** `push_tok`: a full array is replaced by one of twice the length, with the earlier tokens in it.  An index
        outlives that; a pointer need not, though `realloc` may also extend the array in place. */
    method Push(t: Token) returns (k: nat)
      requires toks.Length == Capacity(ntok)
      modifies this`toks, this`ntok, toks
      ensures k == old(ntok) && ntok == k + 1 && toks.Length == Capacity(ntok)
      ensures toks[k] == t && forall i :: 0 <= i < k ==> toks[i] == old(toks[i])
      ensures if Full(k) then fresh(toks) && toks.Length == 2 * old(toks.Length) else toks == old(toks)
    {
      hide Capacity;
      CapacityNext(ntok);
      if ntok == toks.Length {
        var bigger := new Token[2 * toks.Length](_ => Eof);
        for i := 0 to ntok
          invariant ntok == old(ntok) && toks == old(toks) && bigger != toks && fresh(bigger)
          invariant forall j :: 0 <= j < i ==> bigger[j] == toks[j]
          invariant forall j :: 0 <= j < ntok ==> toks[j] == old(toks[j])
        {
          bigger[i] := toks[i];
        }
        toks := bigger;
      }
      toks[ntok] := t;
      k := ntok;
      ntok := ntok + 1;
    }

    /** Skips blanks and comments by moving `pos`. */
    method Blank()
      requires pos <= |src|
      modifies this`pos
      ensures pos == SkipBlank(src, old(pos))
    {
      while true
        invariant pos <= |src| && SkipBlank(src, pos) == SkipBlank(src, old(pos))
        decreases |src| - pos
      {
        if pos < |src| && IsSpace(src[pos]) {
          pos := pos + 1;
        } else if pos + 1 < |src| && src[pos] == '/' && src[pos + 1] == '/' {
          pos := pos + 1;
          Advance((c: char) => c == '\n');
        } else {
          return;
        }
      }
    }

    /** Moves `pos` to the first character that satisfies `stop`. */
    method Advance(stop: char -> bool)
      requires pos <= |src|
      modifies this`pos
      ensures pos == Until(src, old(pos), stop)
    {
      while pos < |src| && !stop(src[pos])
        invariant pos <= |src| && Until(src, pos, stop) == Until(src, old(pos), stop)
        decreases |src| - pos
      {
        pos := pos + 1;
      }
    }

    /** `lexer_next`: appends the next token, whatever has been pulled before. */
    method Next() returns (k: nat)
      requires Valid()
      modifies this, toks
      ensures Valid() && k == old(ntok) && ntok == k + 1
      ensures if Full(k) then fresh(toks) && toks.Length == 2 * old(toks.Length) else toks == old(toks)
      ensures Tok(k) == Head(From(All(), k))
    {
      hide LexAll, SkipBlank, Lex, Capacity;
      NextToken(strtod, src, pos);
      FromNext(All(), ntok);
      Blank();
      if pos == |src| {
        k := Push(Eof);
      } else {
        var t := Scan();
        k := Push(t);
      }
    }

    /** The token at `pos`. */
    method Scan() returns (t: Token)
      requires pos < |src|
      modifies this`pos
      ensures (t, pos) == Lex(strtod, src, old(pos))
    {
      hide Keyword, ToLong, Punct, Until, Cut;
      var start := pos;
      var c := src[pos];
      pos := pos + 1;
      if IsAlpha(c) {
        Advance((d: char) => !IsIdent(d));
        return Keyword(src[start..pos]);
      }
      if IsDigit(c) {
        Advance((d: char) => !IsDigit(d));
        if pos < |src| && src[pos] == '.' {
          pos := pos + 1;
          Advance((d: char) => !IsDigit(d));
          return DblTok(strtod(Cut(src[start..pos])));
        }
        return IntTok(ToLong(Cut(src[start..pos])));
      }
      if pos < |src| && src[pos] == '=' && (c == '<' || c == '>' || c == '=' || c == '!') {
        pos := pos + 1;
        return Sym(if c == '<' then Le else if c == '>' then Ge else if c == '=' then Eq else Ne);
      }
      t := if c == '<' then Sym(Lt) else if c == '>' then Sym(Gt) else if c == '=' then Equals else Punct(c);
    }
  }

  /** One unfolding of the token sequence. */
  lemma NextToken(strtod: string -> Lit, src: string, p: nat)
    requires p <= |src|
    ensures var q := SkipBlank(src, p); var ts := LexAll(strtod, src, p);
            if q == |src| then ts == [] && SkipBlank(src, q) == q && LexAll(strtod, src, q) == []
            else var r := Lex(strtod, src, q); Head(ts) == r.0 && Tail(ts) == LexAll(strtod, src, r.1)
  {
  }
}
