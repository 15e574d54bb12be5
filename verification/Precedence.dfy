/** Precedence and associativity by the textbook: in a chain of operands and binary operators the root of the tree is
    the last operator of the loosest group present.  The groups are written out here; the grammar's levels are not
    used to state anything. */
module Precedence {
  import opened Values
  import opened Ast
  import opened Surface
  import opened Syntax

  /** An operand: a literal or a variable, minus an operand, or a chain in parentheses. */
  datatype Term = Atom(t: Token) | Minus(of: Term) | Paren(inner: Chain)

  /** Operands with operators between them. */
  datatype Chain = Chain(first: Term, links: seq<Link>)

  datatype Link = Link(op: Op, term: Term)

  predicate IsAtom(t: Token) { t.IntTok? || t.DblTok? || t.Ident? }

  predicate GoodTerm(x: Term) {
    match x
    case Atom(t) => IsAtom(t)
    case Minus(y) => GoodTerm(y)
    case Paren(c) => GoodChain(c)
  }

  predicate GoodChain(c: Chain) {
    GoodTerm(c.first) && forall i :: 0 <= i < |c.links| ==> GoodTerm(c.links[i].term)
  }

  function TermTokens(x: Term): (ts: Tokens)
    ensures ts != []
  {
    match x
    case Atom(t) => [t]
    case Minus(y) => [Sym(Sub)] + TermTokens(y)
    case Paren(c) => [LParen] + (TermTokens(c.first) + (LinkTokens(c.links) + [RParen]))
  }

  function LinkTokens(links: seq<Link>): Tokens {
    if links == [] then [] else OneLinkTokens(links[0]) + LinkTokens(links[1..])
  }

  function OneLinkTokens(l: Link): Tokens { [Sym(l.op)] + TermTokens(l.term) }

  function ChainTokens(c: Chain): Tokens { TermTokens(c.first) + LinkTokens(c.links) }

  // ----- the tree -----

  /** Products bind tightest, then sums, then comparisons. */
  function Tightness(o: Op): nat {
    if o in {Mul, Div} then 2 else if o in {Add, Sub} then 1 else 0
  }

  /** The last operator of the loosest group. */
  predicate IsRoot(links: seq<Link>, i: nat) {
    && i < |links|
    && (forall j :: 0 <= j < i ==> Tightness(links[j].op) >= Tightness(links[i].op))
    && (forall j :: i < j < |links| ==> Tightness(links[j].op) > Tightness(links[i].op))
  }

  function Root(links: seq<Link>): (i: nat)
    requires links != []
    ensures IsRoot(links, i)
  {
    var n := |links| - 1;
    if n == 0 then 0
    else
      var i := Root(links[..n]);
      assert forall j :: 0 <= j < n ==> links[..n][j] == links[j];
      if Tightness(links[n].op) <= Tightness(links[i].op) then n else i
  }

  lemma RootIsUnique(links: seq<Link>, i: nat, j: nat)
    requires IsRoot(links, i) && IsRoot(links, j)
    ensures i == j
  {
    var a, b := links[i], links[j];
  }

  function AtomTree(t: Token): SExpr
    requires IsAtom(t)
  {
    match t
    case IntTok(i) => SInt(i)
    case DblTok(d) => SDbl(d)
    case Ident(x) => SVar(x)
  }

  /** Number of nodes, for termination. */
  function TermSize(x: Term): (n: nat)
    ensures n > 0
  {
    match x
    case Atom(_) => 1
    case Minus(y) => 1 + TermSize(y)
    case Paren(c) => 1 + TermSize(c.first) + LinkSize(c.links)
  }

  function LinkSize(links: seq<Link>): nat {
    if links == [] then 0 else OneLinkSize(links[0]) + LinkSize(links[1..])
  }

  function OneLinkSize(l: Link): nat { TermSize(l.term) }

  lemma {:induction false} SizesAdd(links: seq<Link>, i: nat)
    requires i < |links|
    ensures LinkSize(links) == LinkSize(links[..i]) + TermSize(links[i].term) + LinkSize(links[i + 1..])
  {
    if i == 0 {
      assert links[..0] == [];
    } else {
      SizesAdd(links[1..], i - 1);
      assert links[..i][1..] == links[1..][..i - 1];
      assert links[i + 1..] == links[1..][i..];
    }
  }

  function TermTree(x: Term): SExpr
    requires GoodTerm(x)
    decreases TermSize(x), 0
  {
    match x
    case Atom(t) => AtomTree(t)
    case Minus(y) => SNeg(TermTree(y))
    case Paren(c) => ChainTree(c.first, c.links)
  }

  function ChainTree(first: Term, links: seq<Link>): SExpr
    requires GoodChain(Chain(first, links))
    decreases TermSize(first) + LinkSize(links), 1
  {
    if links == [] then TermTree(first)
    else
      var i := Root(links);
      SizesAdd(links, i);
      SBin(links[i].op, ChainTree(first, links[..i]), ChainTree(links[i].term, links[i + 1..]))
  }

  // ----- the parser builds that tree -----

  /** What may stand behind an operand. */
  predicate Behind(ts: Tokens) { Head(ts) != LParen && Head(ts) != LBracket }

  lemma LevelIsTightness(o: Op)
    ensures Level(o) == Tightness(o)
  {
  }

  lemma ConsTokens(t: Token, ts: Tokens)
    ensures Head([t] + ts) == t && Tail([t] + ts) == ts
  {
  }

  lemma {:induction false} TermParsed(x: Term, more: Tokens)
    requires GoodTerm(x) && Behind(more)
    ensures ParseUnary(TermTokens(x) + more) == Parsed(TermTree(x), more)
    decreases TermSize(x), 0
  {
    hide ParseExpr, ParseArgs, ParsePrimary, ChainTree;
    match x
    case Atom(t) =>
      ConsTokens(t, more);
      AtomParsed(t, more);
    case Minus(y) =>
      assert TermTokens(x) + more == [Sym(Sub)] + (TermTokens(y) + more);
      ConsTokens(Sym(Sub), TermTokens(y) + more);
      TermParsed(y, more);
    case Paren(c) =>
      var end := [RParen] + more;
      var inner := TermTokens(c.first) + (LinkTokens(c.links) + end);
      assert TermTokens(x) + more == [LParen] + inner;
      ConsTokens(RParen, more);
      ChainParsed(0, c.first, c.links, end);
      NoMore(0, ChainTree(c.first, c.links), end);
      ParenParsed(inner, ChainTree(c.first, c.links), more);
  }

  lemma AtomParsed(t: Token, more: Tokens)
    requires IsAtom(t) && Behind(more)
    ensures ParseUnary([t] + more) == Parsed(AtomTree(t), more)
  {
    hide ParseExpr, ParseArgs;
    ConsTokens(t, more);
  }

  lemma ParenParsed(inner: Tokens, e: SExpr, more: Tokens)
    requires ParseLevel(0, inner) == Parsed(e, [RParen] + more)
    ensures ParseUnary([LParen] + inner) == Parsed(e, more)
  {
    hide ParseLevel, ParseArgs;
    ConsTokens(LParen, inner);
    ConsTokens(RParen, more);
    assert ParseExpr(inner) == Parsed(e, [RParen] + more);
    assert ParsePrimary([LParen] + inner) == Parsed(e, more);
  }

  /** The loop of a level ends at anything but an operator of that level. */
  lemma NoMore(lvl: nat, e: SExpr, ts: Tokens)
    requires lvl <= 2 && (Head(ts).Sym? ==> Tightness(Head(ts).op) != lvl)
    ensures ParseMore(lvl, e, ts) == Parsed(e, ts)
  {
    if Head(ts).Sym? { LevelIsTightness(Head(ts).op); }
  }

  lemma {:induction false} LinksSplit(links: seq<Link>, i: nat)
    requires i < |links|
    ensures LinkTokens(links) ==
            LinkTokens(links[..i]) + ([Sym(links[i].op)] + (TermTokens(links[i].term) + LinkTokens(links[i + 1..])))
  {
    if i == 0 {
      assert links[..0] == [];
    } else {
      LinksSplit(links[1..], i - 1);
      assert links[..i][1..] == links[1..][..i - 1];
      assert links[i + 1..] == links[1..][i..];
    }
  }

  /** A chain of operators at least as tight as a level, with nothing tighter behind it, is read as its tree by that
      level, which then goes on. */
  lemma {:induction false} ChainParsed(lvl: nat, first: Term, links: seq<Link>, more: Tokens)
    requires lvl <= 2 && GoodChain(Chain(first, links)) && Behind(more)
    requires forall i :: 0 <= i < |links| ==> Tightness(links[i].op) >= lvl
    requires Head(more).Sym? ==> Tightness(Head(more).op) <= lvl
    ensures ParseLevel(lvl, TermTokens(first) + (LinkTokens(links) + more)) ==
            ParseMore(lvl, ChainTree(first, links), more)
    decreases TermSize(first) + LinkSize(links), 7 - 2 * lvl
  {
    hide TermTokens, ParseUnary, ParseMore, ChainTree;
    if links != [] && Tightness(links[Root(links)].op) == lvl {
      SplitParsed(lvl, first, links, more);
    } else {
      OperandParsed(lvl, first, links, more);
    }
  }

  lemma NothingTighter(links: seq<Link>)
    requires links != []
    ensures exists i :: 0 <= i < |links| && Tightness(links[i].op) <= 2
  {
    assert Tightness(links[0].op) <= 2;
  }

  /** The operand of a level: everything tighter. */
  lemma {:induction false} OperandParsed(lvl: nat, first: Term, links: seq<Link>, more: Tokens)
    requires lvl <= 2 && GoodChain(Chain(first, links)) && Behind(more)
    requires forall i :: 0 <= i < |links| ==> Tightness(links[i].op) > lvl
    requires Head(more).Sym? ==> Tightness(Head(more).op) <= lvl
    ensures ParseOperand(lvl, TermTokens(first) + (LinkTokens(links) + more)) ==
            Parsed(ChainTree(first, links), more)
    decreases TermSize(first) + LinkSize(links), 6 - 2 * lvl
  {
    hide TermTokens, ParseUnary, ParseMore;
    if lvl == 2 {
      if links != [] { NothingTighter(links); }
      assert LinkTokens(links) + more == more;
      TermParsed(first, more);
    } else {
      ChainParsed(lvl + 1, first, links, more);
      NoMore(lvl + 1, ChainTree(first, links), more);
    }
  }

  lemma {:induction false} SplitParsed(lvl: nat, first: Term, links: seq<Link>, more: Tokens)
    requires lvl <= 2 && GoodChain(Chain(first, links)) && Behind(more)
    requires forall i :: 0 <= i < |links| ==> Tightness(links[i].op) >= lvl
    requires Head(more).Sym? ==> Tightness(Head(more).op) <= lvl
    requires links != [] && Tightness(links[Root(links)].op) == lvl
    ensures ParseLevel(lvl, TermTokens(first) + (LinkTokens(links) + more)) ==
            ParseMore(lvl, ChainTree(first, links), more)
    decreases TermSize(first) + LinkSize(links), 0
  {
    hide TermTokens, LinkTokens, ParseLevel, ParseOperand;
    var i := Root(links);
    var left, op, second, right := links[..i], links[i].op, links[i].term, links[i + 1..];
    SizesAdd(links, i);
    LinksSplit(links, i);
    var tail := TermTokens(second) + (LinkTokens(right) + more);
    assert LinkTokens(links) + more == LinkTokens(left) + ([Sym(op)] + tail);
    ConsTokens(Sym(op), tail);
    ChainParsed(lvl, first, left, [Sym(op)] + tail);
    OperandParsed(lvl, second, right, more);
    LevelIsTightness(op);
  }

  /** Every chain parses to its tree, and the parser stops right behind it. */
  lemma ChainsParse(c: Chain, rest: Tokens)
    requires GoodChain(c) && Behind(rest) && !Head(rest).Sym?
    ensures ParseExpr(ChainTokens(c) + rest) == Parsed(ChainTree(c.first, c.links), rest)
  {
    hide TermTokens, LinkTokens, ParseLevel, ChainTree;
    ChainParsed(0, c.first, c.links, rest);
    assert ChainTokens(c) + rest == TermTokens(c.first) + (LinkTokens(c.links) + rest);
    NoMore(0, ChainTree(c.first, c.links), rest);
  }

  // ----- two operators -----

  /** Two operators between three atoms: the second is taken first exactly if it is tighter. */
  lemma TwoOperators(a: Token, o: Op, b: Token, p: Op, c: Token, rest: Tokens)
    requires IsAtom(a) && IsAtom(b) && IsAtom(c) && Behind(rest) && !Head(rest).Sym?
    ensures var (x, y, z) := (AtomTree(a), AtomTree(b), AtomTree(c));
            ParseExpr([a, Sym(o), b, Sym(p), c] + rest) ==
            if (p in {Mul, Div} && o !in {Mul, Div}) || (p in {Add, Sub} && o in {Lt, Gt, Le, Ge, Eq, Ne})
            then Parsed(SBin(o, x, SBin(p, y, z)), rest)
            else Parsed(SBin(p, SBin(o, x, y), z), rest)
  {
    var ch := Chain(Atom(a), [Link(o, Atom(b)), Link(p, Atom(c))]);
    ThreeAtoms(a, o, b, p, c);
    hide ParseExpr, ChainTree, LinkTokens, TermTokens;
    ChainsParse(ch, rest);
  }

  lemma OneOperator(x: Term, o: Op, y: Term)
    requires GoodTerm(x) && GoodTerm(y)
    ensures ChainTree(x, [Link(o, y)]) == SBin(o, TermTree(x), TermTree(y))
    ensures ChainTokens(Chain(x, [Link(o, y)])) == TermTokens(x) + ([Sym(o)] + TermTokens(y))
  {
    hide TermTokens;
    var l := Link(o, y);
    assert [l][..0] == [] && [l][1..] == [];
    LinkTokensOf(l);
    assert Chain(x, [l]).links == [l];
    RootIsUnique([l], Root([l]), 0);
  }

  lemma ThreeAtoms(a: Token, o: Op, b: Token, p: Op, c: Token)
    requires IsAtom(a) && IsAtom(b) && IsAtom(c)
    ensures var ch := Chain(Atom(a), [Link(o, Atom(b)), Link(p, Atom(c))]);
            && GoodChain(ch) && ChainTokens(ch) == [a, Sym(o), b, Sym(p), c]
            && ChainTree(ch.first, ch.links) ==
               var (x, y, z) := (AtomTree(a), AtomTree(b), AtomTree(c));
               if Tightness(p) > Tightness(o) then SBin(o, x, SBin(p, y, z)) else SBin(p, SBin(o, x, y), z)
  {
    var l, m := Link(o, Atom(b)), Link(p, Atom(c));
    var links := [l, m];
    assert links[1..] == [m] && [m][1..] == [] && links[2..] == [] && links[..1] == [l] && links[..0] == [];
    TwoLinkTokens(l, m);
    OneOperator(Atom(a), o, Atom(b));
    OneOperator(Atom(b), p, Atom(c));
    RootIsUnique(links, Root(links), if Tightness(p) > Tightness(o) then 0 else 1);
  }

  lemma LinkTokensOf(l: Link)
    ensures LinkTokens([l]) == OneLinkTokens(l)
  {
    assert [l][1..] == [];
  }

  lemma TwoLinkTokens(l: Link, m: Link)
    ensures LinkTokens([l, m]) == OneLinkTokens(l) + OneLinkTokens(m)
  {
    LinkTokensOf(m);
    assert [l, m][1..] == [m];
  }

  /** A leading minus belongs to its operand alone, on either side of an operator. */
  lemma MinusIsTightest(a: Token, o: Op, b: Token, rest: Tokens)
    requires IsAtom(a) && IsAtom(b) && Behind(rest) && !Head(rest).Sym?
    ensures ParseExpr([Sym(Sub), a, Sym(o), b] + rest) == Parsed(SBin(o, SNeg(AtomTree(a)), AtomTree(b)), rest)
    ensures ParseExpr([a, Sym(o), Sym(Sub), b] + rest) == Parsed(SBin(o, AtomTree(a), SNeg(AtomTree(b))), rest)
  {
    OneOperator(Minus(Atom(a)), o, Atom(b));
    OneOperator(Atom(a), o, Minus(Atom(b)));
    var left, right := Chain(Minus(Atom(a)), [Link(o, Atom(b))]), Chain(Atom(a), [Link(o, Minus(Atom(b)))]);
    assert ChainTokens(left) == [Sym(Sub), a, Sym(o), b];
    assert ChainTokens(right) == [a, Sym(o), Sym(Sub), b];
    ChainsParse(left, rest);
    ChainsParse(right, rest);
  }
}
