/** Runs of the table with the shipped `scope_pop`: which declarations it still holds, after any history, and
    when a lookup is wrong because of that. */
module StaleScopes {
  import opened Values
  import opened Ast
  import opened Surface
  import opened Elab
  import opened Symtab

  datatype Op = Push | Declare(x: Name, ty: Type) | Pop

  /** Depth after the first `k` operations. */
  function Depth(ops: seq<Op>, k: nat): int
    requires k <= |ops|
  {
    if k == 0 then 0
    else
      Depth(ops, k - 1) +
      match ops[k - 1]
      case Push => 1
      case Declare(_, _) => 0
      case Pop => -1
  }

  /** Every pop closes a scope that a push has opened, as the parser's do. */
  ghost predicate WellNested(ops: seq<Op>) {
    forall k :: 0 <= k <= |ops| ==> Depth(ops, k) >= 0
  }

  /** The declarations among the first `k` operations; each takes the next slot. */
  function Declared(ops: seq<Op>, k: nat): nat
    requires k <= |ops|
  {
    if k == 0 then 0 else Declared(ops, k - 1) + if ops[k - 1].Declare? then 1 else 0
  }

  datatype History = History(g: Scopes, stale: set<Entry>)

  /** One operation, `n` declarations having been made before it. */
  function Next(h: History, op: Op, n: nat): History
    requires h.g != []
  {
    match op
    case Push => History(h.g + [map[]], h.stale)
    case Declare(x, ty) => History(Bind(h.g, x, Binding(ty, n)), StaleAfterInsert(h.g, h.stale, x))
    case Pop => History(h.g[..|h.g| - 1], StaleAfterPop(h.g, h.stale))
  }

  /** The open scopes after the first `k` operations, and what else the table holds. */
  ghost function After(ops: seq<Op>, k: nat): (h: History)
    requires WellNested(ops) && k <= |ops|
    ensures |h.g| == Depth(ops, k) + 1
  {
    if k == 0 then History([map[]], {})
    else
      assert Depth(ops, k) >= 0;
      Next(After(ops, k - 1), ops[k - 1], Declared(ops, k - 1))
  }

  /** Replays a run on the table, with the shipped `scope_pop`. */
  method Replay(hash: Name -> nat, ops: seq<Op>) returns (t: Table)
    requires WellNested(ops)
    ensures fresh(t) && fresh(t.slots) && t.hash == hash
    ensures t.Valid() && t.g == After(ops, |ops|).g && t.stale == After(ops, |ops|).stale
  {
    hide Table.Sound, Holds, StaleOk, Bind, StaleAfterInsert, StaleAfterPop;
    t := new Table(hash);
    var n := 0;
    for i := 0 to |ops|
      invariant fresh(t) && fresh(t.slots) && t.Valid() && t.hash == hash
      invariant t.g == After(ops, i).g && t.stale == After(ops, i).stale
      invariant t.bound <= n == Declared(ops, i)
    {
      assert Depth(ops, i + 1) >= 0;
      match ops[i]
      case Push => t.ScopePush();
      case Declare(x, ty) =>
        t.Insert(x, ty, n);
        n := n + 1;
      case Pop => t.ScopePopAsWritten();
    }
  }

  // ----- which declarations the table holds -----

  ghost predicate Held(h: History, e: Entry)
    requires e.Live?
  {
    InScopes(h.g, e) || e in h.stale
  }

  /** The history is one a run can have: stale entries are in order, and slots are below `n`. */
  ghost predicate Fine(h: History, n: nat) {
    && StaleOk(h.g, h.stale)
    && forall e: Entry :: e.Live? && Held(h, e) ==> e.slot < n
  }

  lemma PushFine(h: History, n: nat)
    requires h.g != [] && Fine(h, n)
    ensures Fine(Next(h, Push, n), n)
    ensures forall e: Entry :: e.Live? ==> (Held(Next(h, Push, n), e) <==> Held(h, e))
  {
  }

  /** A declaration adds its entry and drops none. */
  lemma DeclareFine(h: History, n: nat, x: Name, ty: Type)
    requires h.g != [] && Fine(h, n)
    ensures Fine(Next(h, Declare(x, ty), n), n + 1)
    ensures forall e: Entry :: e.Live? ==>
              (Held(Next(h, Declare(x, ty), n), e) <==> Held(h, e) || e == Live(x, ty, n, |h.g| - 1))
  {
    var h1 := Next(h, Declare(x, ty), n);
    forall e: Entry | e.Live? ensures Held(h1, e) <==> Held(h, e) || e == Live(x, ty, n, |h.g| - 1) {
    }
    forall e | e in h1.stale ensures e.Live? && e.depth <= |h1.g| && !InScopes(h1.g, e) {
      assert Held(h, e);
    }
  }

  /** A pop at depth `d` drops what is deeper than `d`, and nothing else. */
  lemma PopFine(h: History, n: nat)
    requires |h.g| > 1 && Fine(h, n)
    ensures Fine(Next(h, Pop, n), n)
    ensures forall e: Entry :: e.Live? ==> (Held(Next(h, Pop, n), e) <==> Held(h, e) && e.depth < |h.g|)
  {
    var h1 := Next(h, Pop, n);
    forall e: Entry | e.Live? ensures Held(h1, e) <==> Held(h, e) && e.depth < |h.g| {
    }
    forall e | e in h1.stale ensures e.Live? && e.depth <= |h1.g| && !InScopes(h1.g, e) {
      assert Held(h, e);
    }
  }

  lemma {:induction false} RunFine(ops: seq<Op>, k: nat)
    requires WellNested(ops) && k <= |ops|
    ensures Fine(After(ops, k), Declared(ops, k))
  {
    hide Fine, Next;
    if k == 0 {
      FirstFine(ops);
    } else {
      RunFine(ops, k - 1);
      var h, n := After(ops, k - 1), Declared(ops, k - 1);
      assert Depth(ops, k) >= 0;
      match ops[k - 1]
      case Push => PushFine(h, n);
      case Declare(x, ty) => DeclareFine(h, n, x, ty);
      case Pop => PopFine(h, n);
    }
  }

  lemma FirstFine(ops: seq<Op>)
    requires WellNested(ops)
    ensures Fine(After(ops, 0), 0)
  {
  }

  /** The entry that operation `i` writes. */
  ghost function EntryOf(ops: seq<Op>, i: nat): (e: Entry)
    requires WellNested(ops) && i < |ops| && ops[i].Declare?
    ensures e.Live?
  {
    Live(ops[i].x, ops[i].ty, Declared(ops, i), Depth(ops, i))
  }

  lemma {:induction false} DeclaredGrows(ops: seq<Op>, i: nat, j: nat)
    requires i < j <= |ops| && ops[i].Declare?
    ensures Declared(ops, i) < Declared(ops, j)
    decreases j
  {
    if i < j - 1 { DeclaredGrows(ops, i, j - 1); }
  }

  /** Since operation `i` the depth has not fallen below that of the scope around the one it was made in. */
  ghost predicate Around(ops: seq<Op>, i: nat, n: nat)
    requires i < n <= |ops|
  {
    forall k :: i < k <= n ==> Depth(ops, k) >= Depth(ops, i) - 1
  }

  lemma AroundStep(ops: seq<Op>, i: nat, n: nat)
    requires i < n - 1 && n <= |ops|
    ensures Around(ops, i, n) <==> Around(ops, i, n - 1) && Depth(ops, n) >= Depth(ops, i) - 1
    ensures Around(ops, i, n - 1) ==> Depth(ops, n - 1) >= Depth(ops, i) - 1
  {
    hide Depth;
  }

  /** A declaration stays in the table until the depth falls below that of the scope around its own: one level
      later than it should. */
  lemma {:induction false} HeldIff(ops: seq<Op>, i: nat, n: nat)
    requires WellNested(ops) && i < n <= |ops| && ops[i].Declare?
    ensures Held(After(ops, n), EntryOf(ops, i)) <==> Around(ops, i, n)
    decreases n
  {
    hide Fine, Next, Held, Around;
    var h := After(ops, n - 1);
    RunFine(ops, n - 1);
    assert Depth(ops, n) >= 0;
    if i == n - 1 {
      DeclareFine(h, Declared(ops, i), ops[i].x, ops[i].ty);
      assert Around(ops, i, n) by { assert Depth(ops, n) == Depth(ops, i); JustMade(ops, i); }
    } else {
      HeldIff(ops, i, n - 1);
      AroundStep(ops, i, n);
      DeclaredGrows(ops, i, n - 1);
      match ops[n - 1]
      case Push => PushFine(h, Declared(ops, n - 1));
      case Declare(x, ty) => DeclareFine(h, Declared(ops, n - 1), x, ty);
      case Pop => PopFine(h, Declared(ops, n - 1));
    }
  }

  lemma JustMade(ops: seq<Op>, i: nat)
    requires i < |ops| && Depth(ops, i + 1) == Depth(ops, i)
    ensures Around(ops, i, i + 1)
  {
  }

  // ----- a run that goes wrong -----

  /** `{ { int x; } { } ..x.. }`, up to the use: the second inner scope declares nothing. */
  const DEAD: seq<Op> := [Push, Push, Declare("x", TInt), Pop, Push, Pop]

  lemma DeadIsNested()
    ensures WellNested(DEAD) && Declared(DEAD, 2) == 0
  {
    assert Depth(DEAD, 1) == 1 && Depth(DEAD, 2) == 2 && Depth(DEAD, 3) == 2;
    assert Depth(DEAD, 4) == 1 && Depth(DEAD, 5) == 2 && Depth(DEAD, 6) == 1;
    assert Declared(DEAD, 1) == 0;
  }

  /** The scope has gone, and its declaration is still held. */
  lemma DeadIsHeld()
    ensures WellNested(DEAD) && After(DEAD, 6) == History([map[], map[]], {Live("x", TInt, 0, 2)})
  {
    hide TopEntries, Depth, Declared;
    DeadIsNested();
    var e: Entry := Live("x", TInt, 0, 2);
    var g3: Scopes := [map[], map[], map["x" := Binding(TInt, 0)]];
    assert After(DEAD, 1) == History([map[], map[]], {});
    assert After(DEAD, 2) == History([map[], map[], map[]], {});
    assert Bind([map[], map[], map[]], "x", Binding(TInt, 0)) == g3;
    assert StaleAfterInsert([map[], map[], map[]], {}, "x") == {};
    assert After(DEAD, 3) == History(g3, {});
    assert StaleAfterPop(g3, {}) == {e};
    assert After(DEAD, 4) == History([map[], map[]], {e});
    assert After(DEAD, 5) == History([map[], map[], map[]], {e});
    assert StaleAfterPop([map[], map[], map[]], {e}) == {e};
  }

  /** The name is undeclared there, and the table still answers with the dead variable. */
  method DeadNameIsFound(hash: Name -> nat) returns (b: Option<Binding>)
    ensures WellNested(DEAD) && Lookup(After(DEAD, 6).g, "x") == None && b == Some(Binding(TInt, 0))
  {
    hide FirstDeepest, After, WellNested, Reachable, Used;
    DeadIsHeld();
    var t := Replay(hash, DEAD);
    b := t.Find("x", t.g, t.stale);
    DeadAnswer(t.slots[..], hash);
  }

  lemma DeadAnswer(s: seq<Entry>, hash: Name -> nat)
    requires Reachable(s, hash) && Used(s) < |s|
    requires Holds(s, [map[], map[]], {Live("x", TInt, 0, 2)})
    ensures Answer(s, FirstDeepest(s, "x", hash("x") % |s|)) == Some(Binding(TInt, 0))
  {
    hide FirstDeepest, Reachable, Used;
    AnswerIsDeepest(s, hash, "x");
    var e: Entry := Live("x", TInt, 0, 2);
    assert e in s;
    var best := FirstDeepest(s, "x", hash("x") % |s|);
    if best.Some? { assert s[best.value] in s; }
  }

  /** `{ int x; { int x; } ..x.. }`, up to the use. */
  const SHADOWED: seq<Op> := [Push, Declare("x", TInt), Push, Declare("x", TInt), Pop]

  lemma ShadowedIsNested()
    ensures WellNested(SHADOWED) && Declared(SHADOWED, 1) == 0 && Declared(SHADOWED, 3) == 1
  {
    assert Depth(SHADOWED, 1) == 1 && Depth(SHADOWED, 2) == 1 && Depth(SHADOWED, 3) == 2;
    assert Depth(SHADOWED, 4) == 2 && Depth(SHADOWED, 5) == 1;
    assert Declared(SHADOWED, 1) == 0 && Declared(SHADOWED, 2) == 1;
  }

  lemma ShadowIsHeld()
    ensures WellNested(SHADOWED)
    ensures After(SHADOWED, 5) == History([map[], map["x" := Binding(TInt, 0)]], {Live("x", TInt, 1, 2)})
  {
    hide TopEntries, Depth, Declared;
    ShadowedIsNested();
    var g2: Scopes, g3: Scopes := [map[], map["x" := Binding(TInt, 0)]], [map[], map["x" := Binding(TInt, 0)], map[]];
    var g4: Scopes := [map[], map["x" := Binding(TInt, 0)], map["x" := Binding(TInt, 1)]];
    assert After(SHADOWED, 1) == History([map[], map[]], {});
    assert Bind([map[], map[]], "x", Binding(TInt, 0)) == g2;
    assert StaleAfterInsert([map[], map[]], {}, "x") == {};
    assert After(SHADOWED, 2) == History(g2, {});
    assert After(SHADOWED, 3) == History(g3, {});
    assert Bind(g3, "x", Binding(TInt, 1)) == g4;
    assert StaleAfterInsert(g3, {}, "x") == {};
    assert After(SHADOWED, 4) == History(g4, {});
    assert StaleAfterPop(g4, {}) == {Live("x", TInt, 1, 2)};
  }

  /** The name means the outer variable there, and the table answers with the slot of the inner one. */
  method ShadowedNameIsWrong(hash: Name -> nat) returns (b: Option<Binding>)
    ensures WellNested(SHADOWED)
    ensures Lookup(After(SHADOWED, 5).g, "x") == Some(Binding(TInt, 0)) && b == Some(Binding(TInt, 1))
  {
    hide FirstDeepest, After, WellNested, Reachable, Used;
    ShadowIsHeld();
    var t := Replay(hash, SHADOWED);
    b := t.Find("x", t.g, t.stale);
    ShadowAnswer(t.slots[..], hash);
  }

  lemma ShadowAnswer(s: seq<Entry>, hash: Name -> nat)
    requires Reachable(s, hash) && Used(s) < |s|
    requires Holds(s, [map[], map["x" := Binding(TInt, 0)]], {Live("x", TInt, 1, 2)})
    ensures Answer(s, FirstDeepest(s, "x", hash("x") % |s|)) == Some(Binding(TInt, 1))
  {
    hide FirstDeepest, Reachable, Used;
    AnswerIsDeepest(s, hash, "x");
    var e: Entry := Live("x", TInt, 1, 2);
    assert e in s;
    var best := FirstDeepest(s, "x", hash("x") % |s|);
    if best.Some? { assert s[best.value] in s; }
  }

  // ----- which declarations decide -----

  /** A held entry was written by some operation. */
  lemma {:induction false} HeldHasOrigin(ops: seq<Op>, n: nat, e: Entry) returns (i: nat)
    requires WellNested(ops) && n <= |ops| && e.Live? && Held(After(ops, n), e)
    ensures i < n && ops[i] == Declare(e.name, e.ty) && e == EntryOf(ops, i)
  {
    hide Fine, Next, Held;
    i := 0;
    NothingHeld(ops, e);
    if n > 0 {
      var h, m := After(ops, n - 1), Declared(ops, n - 1);
      RunFine(ops, n - 1);
      assert Depth(ops, n) >= 0;
      match ops[n - 1]
      case Push =>
        PushFine(h, m);
        i := HeldHasOrigin(ops, n - 1, e);
      case Pop =>
        PopFine(h, m);
        i := HeldHasOrigin(ops, n - 1, e);
      case Declare(x, ty) =>
        DeclareFine(h, m, x, ty);
        if e == Live(x, ty, m, |h.g| - 1) { i := n - 1; } else { i := HeldHasOrigin(ops, n - 1, e); }
    }
  }

  lemma NothingHeld(ops: seq<Op>, e: Entry)
    requires WellNested(ops) && e.Live?
    ensures !Held(After(ops, 0), e)
  {
  }

  /** Operation `i` declares `x` in a scope that has been closed, and the table still holds it. */
  ghost predicate LeftOver(ops: seq<Op>, i: nat, x: Name)
    requires WellNested(ops)
    ensures LeftOver(ops, i, x) ==> i < |ops|
  {
    && i < |ops| && ops[i].Declare? && ops[i].x == x && Around(ops, i, |ops|)
    && !InScopes(After(ops, |ops|).g, EntryOf(ops, i))
  }

  lemma LeftOverIsStale(ops: seq<Op>, i: nat, x: Name)
    requires WellNested(ops) && LeftOver(ops, i, x)
    ensures EntryOf(ops, i) in After(ops, |ops|).stale
  {
    hide Fine, After, Around;
    HeldIff(ops, i, |ops|);
  }

  lemma DeclaredAtLeast(g: Scopes, e: Entry)
    requires e.Live?
    ensures InScopes(g, e) ==> ScopeOf(g, e.name) >= e.depth
  {
  }

  /** The answer is at least as deep as the innermost open declaration. */
  lemma OpenIsFound(s: seq<Entry>, g: Scopes, stale: set<Entry>, x: Name, best: nat)
    requires Holds(s, g, stale) && Deepest(s, x, best)
    ensures s[best].depth >= ScopeOf(g, x)
  {
    var k := ScopeOf(g, x);
    if k >= 0 {
      var f := Live(x, g[k][x].ty, g[k][x].slot, k);
      assert InScopes(g, f);
      assert f in s;
      var j :| 0 <= j < |s| && s[j] == f;
    }
  }

  /** The table of a run, and the entry that a lookup of `x` answers with. */
  ghost predicate Answers(s: seq<Entry>, ops: seq<Op>, x: Name, best: Option<nat>) {
    && WellNested(ops)
    && Holds(s, After(ops, |ops|).g, After(ops, |ops|).stale)
    && if best.Some? then Deepest(s, x, best.value) else forall j :: 0 <= j < |s| && s[j].Live? ==> s[j].name != x
  }

  lemma DeeperWins(s: seq<Entry>, ops: seq<Op>, i: nat, x: Name, best: Option<nat>)
    requires Answers(s, ops, x, best) && LeftOver(ops, i, x) && Depth(ops, i) > ScopeOf(After(ops, |ops|).g, x)
    ensures best.Some? && s[best.value] in After(ops, |ops|).stale
  {
    hide After, Around;
    var h, e := After(ops, |ops|), EntryOf(ops, i);
    LeftOverIsStale(ops, i, x);
    assert e in s;
    var j :| 0 <= j < |s| && s[j] == e;
    assert s[best.value] in s;
    DeclaredAtLeast(h.g, s[best.value]);
  }

  lemma StaleIsShallow(ops: seq<Op>, e: Entry)
    requires WellNested(ops) && e in After(ops, |ops|).stale
    requires e.Live? && forall i :: LeftOver(ops, i, e.name) ==> Depth(ops, i) < ScopeOf(After(ops, |ops|).g, e.name)
    ensures e.depth < ScopeOf(After(ops, |ops|).g, e.name)
  {
    hide After, Around, Fine;
    var h := After(ops, |ops|);
    RunFine(ops, |ops|);
    FineIsOk(h, Declared(ops, |ops|));
    var i := HeldHasOrigin(ops, |ops|, e);
    HeldIff(ops, i, |ops|);
    assert LeftOver(ops, i, e.name);
  }

  lemma ShallowLose(s: seq<Entry>, ops: seq<Op>, x: Name, best: nat)
    requires Answers(s, ops, x, Some(best))
    requires forall i :: LeftOver(ops, i, x) ==> Depth(ops, i) < ScopeOf(After(ops, |ops|).g, x)
    ensures s[best] !in After(ops, |ops|).stale
  {
    hide After, LeftOver;
    var h := After(ops, |ops|);
    OpenIsFound(s, h.g, h.stale, x, best);
    forall e | e in h.stale && e.Live? && e.name == x ensures e.depth < ScopeOf(h.g, x) { StaleIsShallow(ops, e); }
  }

  lemma FineIsOk(h: History, n: nat)
    requires Fine(h, n)
    ensures StaleOk(h.g, h.stale)
  {
  }

  /** After any run: a lookup is wrong if some left-over declaration of the name is deeper than its innermost open
      one, and right if all are less deep; at equal depth the first on the probe sequence answers. */
  lemma DepthDecides(s: seq<Entry>, hash: Name -> nat, ops: seq<Op>, x: Name)
    requires WellNested(ops) && Reachable(s, hash) && UniqueSlots(s) && Used(s) < |s|
    requires Holds(s, After(ops, |ops|).g, After(ops, |ops|).stale)
    ensures var g, best := After(ops, |ops|).g, FirstDeepest(s, x, hash(x) % |s|);
            && ((exists i :: LeftOver(ops, i, x) && Depth(ops, i) > ScopeOf(g, x)) ==> Answer(s, best) != Lookup(g, x))
            && ((forall i :: LeftOver(ops, i, x) ==> Depth(ops, i) < ScopeOf(g, x)) ==> Answer(s, best) == Lookup(g, x))
  {
    hide Reachable, Used, UniqueSlots, FirstDeepest, After, LeftOver, Fine, Holds, StaleOk, Depth, Lookup, Deepest;
    var h, best := After(ops, |ops|), FirstDeepest(s, x, hash(x) % |s|);
    RunFine(ops, |ops|);
    FineIsOk(h, Declared(ops, |ops|));
    RightIffNotStale(s, hash, h.g, h.stale, x);
    AnswerIsDeepest(s, hash, x);
    assert Answers(s, ops, x, best);
    if i: nat :| LeftOver(ops, i, x) && Depth(ops, i) > ScopeOf(h.g, x) {
      DeeperWins(s, ops, i, x, best);
    }
    if best.Some? && forall i :: LeftOver(ops, i, x) ==> Depth(ops, i) < ScopeOf(h.g, x) {
      ShallowLose(s, ops, x, best.value);
    }
  }

  /** `{ int x; } { int x; ..x.. }`, up to the use: both declarations are at the same depth. */
  const TIED: seq<Op> := [Push, Push, Declare("x", TInt), Pop, Push, Declare("x", TInt)]

  lemma TiedIsHeld()
    ensures WellNested(TIED)
    ensures After(TIED, 6) == History([map[], map[], map["x" := Binding(TInt, 1)]], {Live("x", TInt, 0, 2)})
  {
    hide TopEntries, Depth, Declared;
    TiedIsNested();
    var e: Entry := Live("x", TInt, 0, 2);
    var g2: Scopes, g3: Scopes := [map[], map[], map[]], [map[], map[], map["x" := Binding(TInt, 0)]];
    assert After(TIED, 1) == History([map[], map[]], {});
    assert After(TIED, 2) == History(g2, {});
    assert Bind(g2, "x", Binding(TInt, 0)) == g3 && StaleAfterInsert(g2, {}, "x") == {};
    assert After(TIED, 3) == History(g3, {});
    assert StaleAfterPop(g3, {}) == {e};
    assert After(TIED, 4) == History([map[], map[]], {e});
    assert After(TIED, 5) == History(g2, {e});
    assert Bind(g2, "x", Binding(TInt, 1)) == [map[], map[], map["x" := Binding(TInt, 1)]];
    assert StaleAfterInsert(g2, {e}, "x") == {e};
  }

  lemma TiedIsNested()
    ensures WellNested(TIED) && Declared(TIED, 2) == 0 && Declared(TIED, 5) == 1
  {
    assert Depth(TIED, 1) == 1 && Depth(TIED, 2) == 2 && Depth(TIED, 3) == 2;
    assert Depth(TIED, 4) == 1 && Depth(TIED, 5) == 2 && Depth(TIED, 6) == 2;
    assert Declared(TIED, 1) == 0 && Declared(TIED, 2) == 0 && Declared(TIED, 3) == 1 && Declared(TIED, 4) == 1;
  }

  /** The older entry comes first on the probe sequence, and answers: the name means the dead variable. */
  method TiedNameIsWrong(hash: Name -> nat) returns (b: Option<Binding>)
    ensures WellNested(TIED)
    ensures Lookup(After(TIED, 6).g, "x") == Some(Binding(TInt, 1)) && b == Some(Binding(TInt, 0))
  {
    hide FirstDeepest, After, WellNested, Reachable, Used, UniqueSlots, Holds, StaleOk, Entered, Retire;
    TiedIsHeld();
    var t := new Table(hash);
    t.ScopePush();
    t.ScopePush();
    ghost var s0 := t.slots[..];
    t.Insert("x", TInt, 0);
    ghost var s1 := t.slots[..];
    t.ScopePopAsWritten();
    t.ScopePush();
    ghost var s2 := t.slots[..];
    t.Insert("x", TInt, 1);
    ghost var base := hash("x") % 16;
    OneEntry(s0, s1, base, Live("x", TInt, 0, 2));
    NothingRetired(s1, base, Live("x", TInt, 0, 2));
    assert s2 == s1;
    TwoEntries(s1, t.slots[..], base, Live("x", TInt, 0, 2), Live("x", TInt, 1, 2));
    b := t.Find("x", t.g, t.stale);
  }

  lemma OneEntry(s: seq<Entry>, t: seq<Entry>, b: nat, e: Entry)
    requires |s| == 16 && b < 16 && e.Live? && (forall j :: 0 <= j < 16 ==> s[j] == Empty) && Entered(s, t, b, e)
    ensures t == s[b := e]
  {
    var j :| 0 <= j < |s| && FirstGap(s, b, j) && t == s[j := e];
    assert At(b, 0, |s|) == b && !s[At(b, 0, |s|)].Live?;
  }

  lemma NothingRetired(s: seq<Entry>, b: nat, e: Entry)
    requires |s| == 16 && b < 16 && e.Live? && e.depth < 3 && s[b] == e
    requires forall j :: 0 <= j < 16 && j != b ==> s[j] == Empty
    ensures Retire(s, 3) == s
  {
  }

  lemma TwoEntries(s: seq<Entry>, t: seq<Entry>, b: nat, e: Entry, f: Entry)
    requires |s| == 16 && b < 16 && e.Live? && f.Live? && e.name == f.name && e.depth == f.depth && s[b] == e
    requires forall j :: 0 <= j < 16 && j != b ==> s[j] == Empty
    requires Entered(s, t, b, f)
    ensures |t| == 16 && FirstDeepest(t, e.name, b) == Some(b) && t[b] == e
  {
    var j :| 0 <= j < |s| && FirstGap(s, b, j) && t == s[j := f];
    var c := At(b, 1, 16);
    assert s[c] == Empty && At(b, 0, 16) == b;
    assert !s[At(b, 1, |s|)].Live?;
    assert Dist(b, j, 16) == 1 && j == c;
    ChainLengthIs(t, b, 0, 2);
    assert Best(t, e.name, b, 1) == Some(b);
    assert Best(t, e.name, b, 2) == Some(b);
  }
}
