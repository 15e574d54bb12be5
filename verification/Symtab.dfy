/** The symbol table: open addressing with linear probing, tombstones and rehashing, as an index that agrees
    with a plain stack of scopes. */
module Symtab {
  import opened Values
  import opened Ast
  import opened Surface
  import opened Elab

  /** A slot of the table.  Keys are interned pointers in the code, and names here; `Interner` relates the two. */
  datatype Slot<+K> = Empty | Tomb | Live(name: K, ty: Type, slot: nat, depth: nat)

  type Entry = Slot<Name>

  // ----- probe sequences -----

  /** The p-th index probed from `b`. */
  function At(b: nat, p: nat, n: nat): (j: nat)
    requires b < n && p < n
    ensures j < n
  {
    if b + p < n then b + p else b + p - n
  }

  /** How many probes from `b` it takes to get to `j`. */
  function Dist(b: nat, j: nat, n: nat): (p: nat)
    requires b < n && j < n
    ensures p < n && At(b, p, n) == j
  {
    if b <= j then j - b else j + n - b
  }

  lemma DistAt(b: nat, p: nat, n: nat)
    requires b < n && p < n
    ensures Dist(b, At(b, p, n), n) == p
  {
  }

  /** The code's `(h + p) % cap`. */
  lemma {:induction false} ProbeIndex(h: nat, p: nat, n: nat)
    requires p < n
    ensures (h + p) % n == At(h % n, p, n)
  {
    if p > 0 {
      ProbeIndex(h, p - 1, n);
      NextIndex(h + p - 1, n);
    }
  }

  lemma NextIndex(a: nat, n: nat)
    requires n > 0
    ensures (a + 1) % n == if a % n + 1 == n then 0 else a % n + 1
  {
    var q, r := a / n, a % n;
    assert a == n * q + r;
    if r + 1 == n {
      assert a + 1 == n * (q + 1) + 0;
      Remainder(a + 1, q + 1, 0, n);
    } else {
      Remainder(a + 1, q, r + 1, n);
    }
  }

  lemma Remainder(a: nat, q: nat, r: nat, n: nat)
    requires n > 0 && r < n && a == n * q + r
    ensures a % n == r
  {
    var k := a / n - q;
    assert a == n * (a / n) + a % n;
    assert r - a % n == n * k;
    if k > 0 { AtLeastOnce(n, k); } else if k < 0 { AtLeastOnce(n, -k); }
  }

  lemma AtLeastOnce(n: nat, k: nat)
    requires k >= 1
    ensures n * k >= n
  {
  }

  // ----- what a well-formed table is -----

  /** Nothing between an entry and its hash position is empty. */
  ghost predicate Reachable(s: seq<Entry>, hash: Name -> nat) {
    forall j :: 0 <= j < |s| && s[j].Live? ==> PathTo(s, hash(s[j].name) % |s|, j)
  }

  ghost predicate PathTo(s: seq<Entry>, b: nat, j: nat)
    requires b < |s| && j < |s|
  {
    forall p :: 0 <= p < Dist(b, j, |s|) ==> s[At(b, p, |s|)] != Empty
  }

  /** The first index probed from `b` that holds no live entry. */
  ghost predicate FirstGap(s: seq<Entry>, b: nat, j: nat)
    requires b < |s|
  {
    j < |s| && !s[j].Live? && forall p :: 0 <= p < Dist(b, j, |s|) ==> s[At(b, p, |s|)].Live?
  }

  /** Live entries have distinct slots. */
  ghost predicate UniqueSlots(s: seq<Entry>) {
    forall j, k :: 0 <= j < |s| && 0 <= k < |s| && s[j].Live? && s[k].Live? && s[j].slot == s[k].slot ==> j == k
  }

  ghost predicate SlotsBelow(s: seq<Entry>, bound: nat) {
    forall j :: 0 <= j < |s| && s[j].Live? ==> s[j].slot < bound
  }

  ghost predicate InScopes(g: Scopes, e: Entry)
    requires e.Live?
  {
    e.depth < |g| && e.name in g[e.depth] && g[e.depth][e.name] == Binding(e.ty, e.slot)
  }

  /** The live entries are exactly the declarations of `g` and those in `stale`, which are no longer meant. */
  ghost predicate Holds(s: seq<Entry>, g: Scopes, stale: set<Entry>) {
    forall e: Entry :: e.Live? ==> (e in s <==> InScopes(g, e) || e in stale)
  }

  /** Stale entries are live, declared in no open scope, and at most one deeper than the current scope. */
  ghost predicate StaleOk(g: Scopes, stale: set<Entry>) {
    forall e :: e in stale ==> e.Live? && e.depth <= |g| && !InScopes(g, e)
  }

  function Used(s: seq<Entry>): (n: nat)
    ensures n <= |s|
  {
    if s == [] then 0 else Used(s[..|s| - 1]) + if s[|s| - 1] == Empty then 0 else 1
  }

  lemma {:induction false} SomeEmpty(s: seq<Entry>) returns (e: nat)
    requires Used(s) < |s|
    ensures e < |s| && s[e] == Empty
  {
    var n := |s| - 1;
    if s[n] == Empty { e := n; } else { e := SomeEmpty(s[..n]); }
  }

  lemma {:induction false} UsedAfterWrite(s: seq<Entry>, j: nat, x: Entry)
    requires j < |s|
    ensures Used(s[j := x]) <= Used(s) + 1
    ensures (s[j] == Empty <==> x == Empty) ==> Used(s[j := x]) == Used(s)
  {
    var n := |s| - 1;
    if j == n {
      assert s[j := x][..n] == s[..n];
    } else {
      UsedAfterWrite(s[..n], j, x);
      assert s[j := x][..n] == s[..n][j := x];
    }
  }

  lemma {:induction false} UsedOfEmpty(s: seq<Entry>)
    requires forall j :: 0 <= j < |s| ==> s[j] == Empty
    ensures Used(s) == 0
  {
    if s != [] { UsedOfEmpty(s[..|s| - 1]); }
  }

  /** What `symtab_insert` relies on: the load stays under one half, counting tombstones. */
  ghost predicate RoomLeft(s: seq<Entry>, count: nat) {
    Used(s) <= count && 2 * count < |s| && |s| >= 16
  }

  // ----- writing one entry -----

  lemma WriteKeepsReachable(s: seq<Entry>, hash: Name -> nat, j: nat, x: Entry)
    requires Reachable(s, hash) && j < |s| && x != Empty
    requires x.Live? ==> PathTo(s, hash(x.name) % |s|, j)
    ensures Reachable(s[j := x], hash)
  {
    var t := s[j := x];
    forall k | 0 <= k < |t| && t[k].Live? ensures PathTo(t, hash(t[k].name) % |t|, k) {
      assert PathTo(s, hash(t[k].name) % |s|, k);
    }
  }

  /** The declarations of the innermost scope, as entries. */
  function TopEntries(g: Scopes): (es: set<Entry>)
    requires g != []
    ensures forall e :: e in es <==> e.Live? && e.depth == |g| - 1 && InScopes(g, e)
  {
    var top := g[|g| - 1];
    set x | x in top :: Live(x, top[x].ty, top[x].slot, |g| - 1)
  }

  /** A second declaration of `x` in one scope leaves the first one behind. */
  function StaleAfterInsert(g: Scopes, stale: set<Entry>, x: Name): set<Entry>
    requires g != []
  {
    stale + set e | e in TopEntries(g) && e.name == x
  }

  lemma InsertHolds(s: seq<Entry>, g: Scopes, stale: set<Entry>, j: nat, x: Name, b: Binding)
    requires Holds(s, g, stale) && StaleOk(g, stale) && j < |s| && !s[j].Live? && g != []
    requires SlotsBelow(s, b.slot)
    ensures Holds(s[j := Live(x, b.ty, b.slot, |g| - 1)], Bind(g, x, b), StaleAfterInsert(g, stale, x))
    ensures StaleOk(Bind(g, x, b), StaleAfterInsert(g, stale, x))
  {
    var e0 := Live(x, b.ty, b.slot, |g| - 1);
    var t, g1 := s[j := e0], Bind(g, x, b);
    var stale1 := StaleAfterInsert(g, stale, x);
    assert forall k :: 0 <= k < |s| ==> s[k] != e0;
    forall e: Entry | e.Live? ensures e in t <==> InScopes(g1, e) || e in stale1 {
      InAfterWrite(s, j, e0, e);
      assert e in s <==> InScopes(g, e) || e in stale;
    }
    forall e | e in stale1 ensures e.Live? && e.depth <= |g1| && !InScopes(g1, e) {
      assert e in s <==> InScopes(g, e) || e in stale;
    }
  }

  /** Membership after overwriting a position that did not hold `e`. */
  lemma InAfterWrite(s: seq<Entry>, j: nat, x: Entry, e: Entry)
    requires j < |s| && s[j] != e
    ensures e in s[j := x] <==> e == x || e in s
  {
    var t := s[j := x];
    if e in s {
      var k :| 0 <= k < |s| && s[k] == e;
      assert t[k] == e;
    }
    assert t[j] == x;
  }

  // ----- lookup -----

  /** The first deepest entry of `x` among the first `p` probed from `b`: what the loop of `symtab_lookup` has
      kept. */
  function Best<K(==)>(s: seq<Slot<K>>, x: K, b: nat, p: nat): (best: Option<nat>)
    requires b < |s| && p <= |s|
    ensures best.Some? ==> best.value < |s| && s[best.value].Live? && s[best.value].name == x
  {
    if p == 0 then None
    else
      var prev := Best(s, x, b, p - 1);
      var j := At(b, p - 1, |s|);
      if s[j].Live? && s[j].name == x && (prev.None? || s[j].depth > s[prev.value].depth) then Some(j) else prev
  }

  /** Probes from `b`, `p` of them done, before the first empty slot. */
  function ChainLength<K(==)>(s: seq<Slot<K>>, b: nat, p: nat): (n: nat)
    requires b < |s| && p <= |s|
    ensures p <= n <= |s|
    decreases |s| - p
  {
    if p == |s| || s[At(b, p, |s|)].Empty? then p else ChainLength(s, b, p + 1)
  }

  /** The entry `symtab_lookup` answers with, probing from `b`. */
  function FirstDeepest<K(==)>(s: seq<Slot<K>>, x: K, b: nat): Option<nat>
    requires b < |s|
  {
    Best(s, x, b, ChainLength(s, b, 0))
  }

  function Answer(s: seq<Entry>, best: Option<nat>): Option<Binding>
    requires best.Some? ==> best.value < |s| && s[best.value].Live?
  {
    if best.Some? then Some(Binding(s[best.value].ty, s[best.value].slot)) else None
  }

  lemma {:induction false} ChainLengthIs<K>(s: seq<Slot<K>>, b: nat, p: nat, n: nat)
    requires b < |s| && p <= n < |s| && s[At(b, n, |s|)].Empty?
    requires forall q :: p <= q < n ==> !s[At(b, q, |s|)].Empty?
    ensures ChainLength(s, b, p) == n
    decreases n - p
  {
    if p < n { ChainLengthIs(s, b, p + 1, n); }
  }

  /** What the loop has kept is deepest among what it has probed. */
  lemma {:induction false} BestIsDeepest(s: seq<Entry>, x: Name, b: nat, p: nat)
    requires b < |s| && p <= |s|
    ensures var best := Best(s, x, b, p);
            forall q :: 0 <= q < p && s[At(b, q, |s|)].Live? && s[At(b, q, |s|)].name == x ==>
              best.Some? && s[At(b, q, |s|)].depth <= s[best.value].depth
  {
    if p > 0 { BestIsDeepest(s, x, b, p - 1); }
  }

  lemma {:induction false} ChainEnds<K>(s: seq<Slot<K>>, b: nat, p: nat, e: nat)
    requires b < |s| && p <= e < |s| && s[At(b, e, |s|)].Empty?
    ensures ChainLength(s, b, p) <= e && s[At(b, ChainLength(s, b, p), |s|)].Empty?
    decreases e - p
  {
    if !s[At(b, p, |s|)].Empty? { ChainEnds(s, b, p + 1, e); }
  }

  /** Entry `j` is a live declaration of `x`, and none is deeper. */
  ghost predicate Deepest(s: seq<Entry>, x: Name, j: nat) {
    && j < |s| && s[j].Live? && s[j].name == x
    && forall k :: 0 <= k < |s| && s[k].Live? && s[k].name == x ==> s[k].depth <= s[j].depth
  }

  /** The answer is a deepest entry of the whole table, and there is one if the name has any entry. */
  lemma AnswerIsDeepest(s: seq<Entry>, hash: Name -> nat, x: Name)
    requires Reachable(s, hash) && Used(s) < |s|
    ensures var best := FirstDeepest(s, x, hash(x) % |s|);
            && (best.Some? ==> Deepest(s, x, best.value))
            && (best.None? ==> forall j :: 0 <= j < |s| && s[j].Live? ==> s[j].name != x)
  {
    hide Reachable, Used, Best, ChainLength;
    var b := hash(x) % |s|;
    var e := SomeEmpty(s);
    ChainEnds(s, b, 0, Dist(b, e, |s|));
    var p := ChainLength(s, b, 0);
    AllProbed(s, hash, x, p);
    BestIsDeepest(s, x, b, p);
    forall j | 0 <= j < |s| && s[j].Live? && s[j].name == x
      ensures Best(s, x, b, p).Some? && s[j].depth <= s[Best(s, x, b, p).value].depth
    {
      assert At(b, Dist(b, j, |s|), |s|) == j;
    }
  }

  /** A lookup is right, for any history of the table, exactly when its answer is not stale. */
  lemma RightIffNotStale(s: seq<Entry>, hash: Name -> nat, g: Scopes, stale: set<Entry>, x: Name)
    requires Reachable(s, hash) && UniqueSlots(s) && Used(s) < |s|
    requires Holds(s, g, stale) && StaleOk(g, stale)
    ensures var best := FirstDeepest(s, x, hash(x) % |s|);
            Answer(s, best) == Lookup(g, x) <==> best.None? || s[best.value] !in stale
  {
    hide Reachable, Used, FirstDeepest;
    AnswerIsDeepest(s, hash, x);
    var best := FirstDeepest(s, x, hash(x) % |s|);
    var k := ScopeOf(g, x);
    if k >= 0 {
      var f := Live(x, g[k][x].ty, g[k][x].slot, k);
      assert InScopes(g, f);
      assert f in s;
      var i :| 0 <= i < |s| && s[i] == f;
      if best.Some? && s[best.value] in stale { assert !InScopes(g, s[best.value]); }
    }
    if best.Some? {
      assert s[best.value] in s;
      assert InScopes(g, s[best.value]) || s[best.value] in stale;
    }
  }

  // ----- the shipped scope_pop -----

  /** Leaving one scope without retiring its entries, while nothing is stale, is right for every name exactly
      when the scope declared nothing. */
  lemma StaleScopeInvisibleIff(g: Scopes)
    requires g != []
    requires forall i, x, j, y :: 0 <= i < |g| && 0 <= j < |g| && x in g[i] && y in g[j] && g[i][x].slot == g[j][y].slot
               ==> i == j && x == y
    ensures (forall x :: Lookup(g, x) == Lookup(g[..|g| - 1], x)) <==> g[|g| - 1] == map[]
  {
    var top, outer := g[|g| - 1], g[..|g| - 1];
    if top != map[] {
      var x :| x in top;
      var k := ScopeOf(outer, x);
      if k >= 0 { assert outer[k][x] == g[k][x]; }
      assert Lookup(g, x) != Lookup(outer, x);
    }
  }

  /** The shipped comparison keeps the scope being left and drops what the scopes inside it had left behind. */
  function StaleAfterPop(g: Scopes, stale: set<Entry>): set<Entry>
    requires g != []
  {
    (set e | e in stale && e.Live? && e.depth < |g|) + TopEntries(g)
  }

  /** `e` has been written to the first place probed that was free. */
  ghost predicate Entered(s: seq<Entry>, t: seq<Entry>, b: nat, e: Entry)
    requires b < |s|
  {
    exists j :: 0 <= j < |s| && FirstGap(s, b, j) && t == s[j := e]
  }

  /** The documented comparison drops both. */
  function StaleAfterDocumentedPop(g: Scopes, stale: set<Entry>): set<Entry>
    requires g != []
  {
    set e | e in stale && e.Live? && e.depth < |g| - 1
  }

  class Table {
    const hash: Name -> nat
    var slots: array<Entry>
    var count: nat
    var depth: nat
    /** The declarations made so far in the scopes still open. */
    ghost var g: Scopes
    /** Live entries that no open scope declares. */
    ghost var stale: set<Entry>
    /** Nothing has ever been left behind; then the table answers as `g` does. */
    ghost var clean: bool
    /** Slots are handed out in increasing order; this is the next one. */
    ghost var bound: nat

    /** The slots are a well-formed index: probing finds what is there, and terminates. */
    ghost predicate Sound()
      reads this, slots
    {
      && Reachable(slots[..], hash) && UniqueSlots(slots[..]) && RoomLeft(slots[..], count)
      && SlotsBelow(slots[..], bound)
    }

    ghost predicate Valid()
      reads this, slots
    {
      Sound() && |g| == depth + 1 && Holds(slots[..], g, stale) && StaleOk(g, stale) && (clean ==> stale == {})
    }

    constructor (hash: Name -> nat)
      ensures Valid() && clean && stale == {} && g == [map[]] && bound == 0 && fresh(slots) && this.hash == hash
      ensures slots.Length == 16 && count == 0 && forall j :: 0 <= j < slots.Length ==> slots[j] == Empty
    {
      this.hash := hash;
      slots := new Entry[16](_ => Empty);
      count := 0;
      depth := 0;
      g := [map[]];
      stale := {};
      clean := true;
      bound := 0;
      new;
      EmptyTable(slots[..], hash);
    }

    method ScopePush()
      requires Valid()
      modifies this`depth, this`g
      ensures Valid() && g == old(g) + [map[]]
    {
      StaleUnderNewScope(g, stale);
      depth := depth + 1;
      g := g + [map[]];
      assert forall e: Entry :: e.Live? ==> (InScopes(g, e) <==> InScopes(old(g), e));
    }

    /** `symtab_lookup`: walks to the first empty slot, keeping the deepest match.  The answer is right exactly
        when it is not a stale entry. */
    method Find(x: Name, ghost scopes: Scopes, ghost left: set<Entry>) returns (b: Option<Binding>)
      requires Sound()
      ensures b == Answer(slots[..], FirstDeepest(slots[..], x, hash(x) % slots.Length))
      ensures Holds(slots[..], scopes, left) && StaleOk(scopes, left) ==>
                var best := FirstDeepest(slots[..], x, hash(x) % slots.Length);
                b == Lookup(scopes, x) <==> best.None? || slots[best.value] !in left
    {
      hide Used, Reachable, UniqueSlots, Holds, StaleOk;
      var n := slots.Length;
      ghost var s := slots[..];
      var h := hash(x);
      ghost var base := h % n;
      ghost var e := SomeEmpty(s);
      ghost var end := Dist(base, e, n);
      var best: Option<nat> := None;
      var p := 0;
      while true
        invariant 0 <= p <= end
        invariant forall q :: 0 <= q < p ==> !s[At(base, q, n)].Empty?
        invariant best == Best(s, x, base, p)
        decreases n - p
      {
        ProbeIndex(h, p, n);
        var j := (h + p) % n;
        if slots[j] == Empty { break; }
        if slots[j].Live? && slots[j].name == x {
          if best.None? || slots[j].depth > slots[best.value].depth { best := Some(j); }
        }
        p := p + 1;
      }
      ChainLengthIs(s, base, 0, p);
      if Holds(s, scopes, left) && StaleOk(scopes, left) { RightIffNotStale(s, hash, scopes, left, x); }
      b := if best.Some? then Some(Binding(slots[best.value].ty, slots[best.value].slot)) else None;
    }

    /** The probing part of `symtab_insert`: first empty slot or tombstone. */
    method Place(x: Name, ty: Type, slot: nat) returns (j: nat)
      requires Used(slots[..]) < slots.Length
      modifies this`count, slots
      ensures slots == old(slots) && j < slots.Length && !old(slots[j]).Live?
      ensures slots[..] == old(slots[..])[j := Live(x, ty, slot, depth)] && count == old(count) + 1
      ensures PathTo(old(slots[..]), hash(x) % slots.Length, j)
      ensures FirstGap(old(slots[..]), hash(x) % slots.Length, j)
    {
      hide Used;
      var n := slots.Length;
      ghost var s := slots[..];
      var h := hash(x);
      ghost var base := h % n;
      ghost var e := SomeEmpty(s);
      j := FirstFree(h, e);
      slots[j] := Live(x, ty, slot, depth);
      count := count + 1;
    }

    /** First index probed that holds no live entry; `e` is some empty one. */
    method FirstFree(h: nat, ghost e: nat) returns (j: nat)
      requires e < slots.Length && slots[e] == Empty
      ensures j < slots.Length && !slots[j].Live?
      ensures PathTo(slots[..], h % slots.Length, j) && FirstGap(slots[..], h % slots.Length, j)
    {
      var n := slots.Length;
      ghost var base, end := h % n, Dist(h % n, e, n);
      var p := 0;
      ProbeIndex(h, p, n);
      j := (h + p) % n;
      while slots[j].Live?
        invariant 0 <= p <= end && j == At(base, p, n)
        invariant forall q :: 0 <= q < p ==> slots[At(base, q, n)].Live?
        decreases n - p
      {
        p := p + 1;
        ProbeIndex(h, p, n);
        j := (h + p) % n;
      }
      DistAt(base, p, n);
    }

    /** `symtab_insert`.  A second declaration of a name in one scope is accepted like any other. */
    method Insert(x: Name, ty: Type, slot: nat)
      requires Valid() && bound <= slot
      modifies this, slots
      ensures Valid() && g == Bind(old(g), x, Binding(ty, slot)) && bound == slot + 1
      ensures clean == (old(clean) && x !in old(g)[old(depth)])
      ensures stale == StaleAfterInsert(old(g), old(stale), x)
      ensures slots == old(slots) || fresh(slots)
      ensures (old(count) + 1) * 2 < old(slots.Length) ==>
                slots == old(slots) && count == old(count) + 1
                && Entered(old(slots[..]), slots[..], hash(x) % slots.Length, Live(x, ty, slot, old(depth)))
    {
      hide Used, Reachable, UniqueSlots, Holds, StaleOk, SameEntries, SlotsBelow, Bind, StaleAfterInsert, Entered;
      if (count + 1) * 2 >= slots.Length { Rehash(slots.Length * 2); }
      Enter(x, ty, slot);
    }

    /** The insertion itself, once there is room. */
    method Enter(x: Name, ty: Type, slot: nat)
      requires Valid() && bound <= slot && (count + 1) * 2 < slots.Length
      modifies `count, `g, `clean, `stale, `bound, slots
      ensures Valid() && g == Bind(old(g), x, Binding(ty, slot)) && bound == slot + 1
      ensures clean == (old(clean) && x !in old(g)[old(depth)])
      ensures stale == StaleAfterInsert(old(g), old(stale), x)
      ensures count == old(count) + 1
      ensures Entered(old(slots[..]), slots[..], hash(x) % slots.Length, Live(x, ty, slot, depth))
    {
      hide Used, Reachable, UniqueSlots, Holds, StaleOk, PathTo, SlotsBelow, FirstGap;
      ghost var s := slots[..];
      var j := Place(x, ty, slot);
      WriteKeepsReachable(s, hash, j, slots[j]);
      UniqueAfterWrite(s, j, slots[j], bound);
      UsedAfterWrite(s, j, slots[j]);
      BelowHigher(s, bound, slot);
      InsertHolds(s, g, stale, j, x, Binding(ty, slot));
      stale := StaleAfterInsert(g, stale, x);
      clean := clean && x !in g[depth];
      g := Bind(g, x, Binding(ty, slot));
      bound := slot + 1;
    }

    /** `rehash`: every live entry moves, with its depth; tombstones go. */
    method Rehash(newcap: nat)
      requires Valid() && newcap == slots.Length * 2
      modifies this
      ensures Valid() && g == old(g) && depth == old(depth) && clean == old(clean) && bound == old(bound)
      ensures stale == old(stale)
      ensures fresh(slots) && slots.Length == newcap
      ensures SameEntries(slots[..], old(slots[..]))
      ensures (count + 1) * 2 < slots.Length
    {
      hide SlotsBelow, Used, Holds, PathTo, Reachable, UniqueSlots, SameEntries;
      ghost var was := slots[..];
      var old_ := slots;
      slots := new Entry[newcap](_ => Empty);
      count := 0;
      EmptyTable(slots[..], hash);
      for i := 0 to old_.Length
        invariant slots != old_ && fresh(slots) && slots.Length == newcap && old_[..] == was
        invariant unchanged(this`depth) && unchanged(this`g) && unchanged(this`clean) && unchanged(this`bound)
        invariant unchanged(this`stale)
        invariant count <= Used(was[..i])
        invariant Used(slots[..]) <= count
        invariant Reachable(slots[..], hash) && UniqueSlots(slots[..])
        invariant SameEntries(slots[..], was[..i])
      {
        assert was[..i + 1] == was[..i] + [was[i]];
        UsedPrefix(was, i);
        if old_[i].Live? {
          // the guard of the insertion does not fire here
          assert (count + 1) * 2 < slots.Length;
          Move(was, i, old_[i]);
        } else {
          SkipDead(slots[..], was[..i], was[i]);
        }
      }
      assert was[..|was|] == was;
      SameHolds(slots[..], was, g, stale, bound);
    }

    /** Re-inserts one entry and restores its depth, which the insertion has stamped with the current one. */
    method Move(ghost was: seq<Entry>, ghost i: nat, e: Entry)
      requires i < |was| && was[i] == e && e.Live? && UniqueSlots(was)
      requires Used(slots[..]) <= count && (count + 1) * 2 < slots.Length
      requires Reachable(slots[..], hash) && UniqueSlots(slots[..])
      requires SameEntries(slots[..], was[..i])
      modifies this`count, slots
      ensures count == old(count) + 1 && slots == old(slots) && Used(slots[..]) <= count
      ensures Reachable(slots[..], hash) && UniqueSlots(slots[..])
      ensures SameEntries(slots[..], was[..i] + [e])
    {
      hide Used, Reachable, UniqueSlots, SameEntries, PathTo;
      ghost var s := slots[..];
      var at := Place(e.name, e.ty, e.slot);
      FreshAmongMoved(s, was, i, at, e.(depth := depth));
      var j := Locate(e.name, e.slot, at);
      slots[j] := slots[j].(depth := e.depth);
      assert slots[..] == s[at := e];
      MovedEntry(s, was, i, at, e, hash, hash(e.name) % |s|);
    }

    /** Finds the entry of a name with a given slot, which is known to be at `at`. */
    method Locate(x: Name, slot: nat, ghost at: nat) returns (j: nat)
      requires UniqueSlots(slots[..]) && at < slots.Length
      requires slots[at].Live? && slots[at].name == x && slots[at].slot == slot
      ensures j == at
    {
      var n := slots.Length;
      var h := hash(x);
      ghost var base := h % n;
      var p := 0;
      ProbeIndex(h, p, n);
      j := (h + p) % n;
      while !(slots[j].Live? && slots[j].name == x && slots[j].slot == slot)
        invariant 0 <= p <= Dist(base, at, n) && j == At(base, p, n)
        decreases n - p
      {
        p := p + 1;
        ProbeIndex(h, p, n);
        j := (h + p) % n;
      }
      OnlyOne(slots[..], j, at);
    }

    /** The loop of `scope_pop`: entries at depth `d` or deeper become tombstones. */
    method RetireFrom(d: nat)
      modifies slots
      ensures slots[..] == Retire(old(slots[..]), d)
    {
      ghost var s := slots[..];
      for i := 0 to slots.Length
        invariant |slots[..]| == |s|
        invariant forall j :: 0 <= j < slots.Length ==> slots[j] == if j < i then Retire(s, d)[j] else s[j]
      {
        if slots[i].Live? && slots[i].depth >= d { slots[i] := Tomb; }
      }
    }

    /** `scope_pop` as documented: retires the declarations of the scope being left. */
    method ScopePop()
      requires Valid() && depth > 0
      modifies this`depth, this`g, this`stale, slots
      ensures Valid() && slots == old(slots) && g == old(g)[..|old(g)| - 1] && depth == old(depth) - 1
      ensures stale == StaleAfterDocumentedPop(old(g), old(stale))
    {
      hide Holds, StaleOk, Reachable, UniqueSlots, SlotsBelow, RoomLeft, Retire;
      ghost var s := slots[..];
      RetireFrom(depth);
      RetireKeepsIndex(s, hash, count, depth);
      DocumentedPopHolds(s, g, stale);
      stale := StaleAfterDocumentedPop(g, stale);
      depth := depth - 1;
      g := g[..|g| - 1];
    }

    /** `scope_pop` as written compares with `>`: the entries of the scope being left have exactly the current
        depth and stay, and those the scopes inside it had left behind go, one level late. */
    method ScopePopAsWritten()
      requires Valid() && depth > 0
      modifies this`depth, this`g, this`stale, this`clean, slots
      ensures Valid() && slots == old(slots) && g == old(g)[..|old(g)| - 1] && depth == old(depth) - 1
      ensures stale == StaleAfterPop(old(g), old(stale))
      ensures clean == (old(clean) && old(g)[old(depth)] == map[])
      ensures slots[..] == Retire(old(slots[..]), old(depth) + 1)
    {
      hide Holds, StaleOk, Reachable, UniqueSlots, SlotsBelow, RoomLeft, Retire;
      ghost var s := slots[..];
      RetireFrom(depth + 1);
      RetireKeepsIndex(s, hash, count, depth + 1);
      PopHolds(s, g, stale);
      stale := StaleAfterPop(g, stale);
      clean := clean && g[depth] == map[];
      depth := depth - 1;
      g := g[..|g| - 1];
    }
  }

  lemma StaleUnderNewScope(g: Scopes, stale: set<Entry>)
    requires StaleOk(g, stale)
    ensures StaleOk(g + [map[]], stale)
  {
    forall e | e in stale ensures e.Live? && e.depth <= |g| + 1 && !InScopes(g + [map[]], e) { }
  }

  lemma BelowHigher(s: seq<Entry>, a: nat, b: nat)
    requires SlotsBelow(s, a) && a <= b
    ensures SlotsBelow(s, b)
  {
  }

  // ----- rehashing -----

  /** The same live entries. */
  ghost predicate SameEntries(s: seq<Entry>, t: seq<Entry>) {
    forall e: Entry :: e.Live? ==> (e in s <==> e in t)
  }

  lemma EmptyTable(s: seq<Entry>, hash: Name -> nat)
    requires forall j :: 0 <= j < |s| ==> s[j] == Empty
    ensures Reachable(s, hash) && UniqueSlots(s) && SameEntries(s, []) && Used(s) == 0 && Used([]) == 0
  {
    UsedOfEmpty(s);
  }

  lemma SkipDead(s: seq<Entry>, t: seq<Entry>, x: Entry)
    requires SameEntries(s, t) && !x.Live?
    ensures SameEntries(s, t + [x])
  {
  }

  lemma SameHolds(s: seq<Entry>, t: seq<Entry>, g: Scopes, stale: set<Entry>, bound: nat)
    requires SameEntries(s, t)
    ensures Holds(t, g, stale) ==> Holds(s, g, stale)
    ensures SlotsBelow(t, bound) ==> SlotsBelow(s, bound)
  {
    if SlotsBelow(t, bound) {
      forall j | 0 <= j < |s| && s[j].Live? ensures s[j].slot < bound {
        assert s[j] in s;
        assert s[j] in t;
      }
    }
  }

  lemma {:induction false} UsedPrefix(s: seq<Entry>, i: nat)
    requires i < |s|
    ensures Used(s[..i]) + (if s[i] == Empty then 0 else 1) == Used(s[..i + 1]) <= Used(s)
    decreases |s|
  {
    assert s[..i + 1][..i] == s[..i];
    var n := |s| - 1;
    if i < n {
      UsedPrefix(s[..n], i);
      assert s[..n][..i] == s[..i] && s[..n][..i + 1] == s[..i + 1];
    } else {
      assert s[..i + 1] == s;
    }
  }

  /** An entry of the old table is not yet in the new one, under any depth. */
  lemma FreshAmongMoved(s: seq<Entry>, was: seq<Entry>, i: nat, at: nat, x: Entry)
    requires i < |was| && was[i].Live? && x.Live? && x.slot == was[i].slot
    requires UniqueSlots(was) && UniqueSlots(s) && SameEntries(s, was[..i]) && at < |s|
    ensures UniqueSlots(s[at := x])
  {
    forall j | 0 <= j < |s| && s[j].Live? ensures s[j].slot != x.slot {
      assert s[j] in s;
      assert s[j] in was[..i];
    }
  }

  lemma UniqueAfterWrite(s: seq<Entry>, at: nat, x: Entry, bound: nat)
    requires x.Live? && at < |s| && UniqueSlots(s) && SlotsBelow(s, bound) && bound <= x.slot
    ensures UniqueSlots(s[at := x]) && SlotsBelow(s[at := x], x.slot + 1)
  {
  }

  lemma OnlyOne(s: seq<Entry>, j: nat, k: nat)
    requires UniqueSlots(s) && j < |s| && k < |s| && s[j].Live? && s[k].Live? && s[j].slot == s[k].slot
    ensures j == k
  {
  }

  lemma MovedEntry(s: seq<Entry>, was: seq<Entry>, i: nat, at: nat, e: Entry, hash: Name -> nat, base: nat)
    requires i < |was| && was[i] == e && e.Live? && UniqueSlots(was) && at < |s| && !s[at].Live?
    requires Reachable(s, hash) && UniqueSlots(s) && SameEntries(s, was[..i])
    requires base == hash(e.name) % |s| && PathTo(s, base, at)
    ensures Reachable(s[at := e], hash) && UniqueSlots(s[at := e])
    ensures SameEntries(s[at := e], was[..i] + [e])
    ensures Used(s[at := e]) <= Used(s) + 1
  {
    WriteKeepsReachable(s, hash, at, e);
    FreshAmongMoved(s, was, i, at, e);
    UsedAfterWrite(s, at, e);
    forall x: Entry | x.Live? ensures x in s[at := e] <==> x in was[..i] + [e] {
      InAfterWrite(s, at, e, x);
    }
  }

  // ----- retiring a scope -----

  function Retire(s: seq<Entry>, d: nat): (t: seq<Entry>)
    ensures |t| == |s|
  {
    seq(|s|, j requires 0 <= j < |s| => if s[j].Live? && s[j].depth >= d then Tomb else s[j])
  }

  lemma RetireKeepsIndex(s: seq<Entry>, hash: Name -> nat, count: nat, d: nat)
    requires Reachable(s, hash) && UniqueSlots(s) && RoomLeft(s, count)
    ensures var t := Retire(s, d); Reachable(t, hash) && UniqueSlots(t) && RoomLeft(t, count)
    ensures forall bound :: SlotsBelow(s, bound) ==> SlotsBelow(Retire(s, d), bound)
  {
    var t := Retire(s, d);
    forall k | 0 <= k < |t| && t[k].Live? ensures PathTo(t, hash(t[k].name) % |t|, k) {
      assert PathTo(s, hash(s[k].name) % |s|, k);
    }
    UsedSame(s, t);
  }

  lemma InRetired(s: seq<Entry>, d: nat, e: Entry)
    requires e.Live?
    ensures e in Retire(s, d) <==> e in s && e.depth < d
  {
    var t := Retire(s, d);
    if e in s && e.depth < d {
      var k :| 0 <= k < |s| && s[k] == e;
      assert t[k] == e;
    }
    if e in t {
      var k :| 0 <= k < |t| && t[k] == e;
      assert s[k] == e;
    }
  }

  /** Retiring the innermost depth leaves the outer scopes. */
  lemma DocumentedPopHolds(s: seq<Entry>, g: Scopes, stale: set<Entry>)
    requires Holds(s, g, stale) && StaleOk(g, stale) && g != []
    ensures Holds(Retire(s, |g| - 1), g[..|g| - 1], StaleAfterDocumentedPop(g, stale))
    ensures StaleOk(g[..|g| - 1], StaleAfterDocumentedPop(g, stale))
  {
    hide Retire;
    var outer, stale1 := g[..|g| - 1], StaleAfterDocumentedPop(g, stale);
    forall e: Entry | e.Live? ensures e in Retire(s, |g| - 1) <==> InScopes(outer, e) || e in stale1 {
      InRetired(s, |g| - 1, e);
      assert e in s <==> InScopes(g, e) || e in stale;
    }
    forall e | e in stale1 ensures e.Live? && e.depth <= |outer| && !InScopes(outer, e) {
      assert !InScopes(g, e);
    }
  }

  /** Retiring one depth further in leaves the innermost scope behind. */
  lemma PopHolds(s: seq<Entry>, g: Scopes, stale: set<Entry>)
    requires Holds(s, g, stale) && StaleOk(g, stale) && g != []
    ensures Holds(Retire(s, |g|), g[..|g| - 1], StaleAfterPop(g, stale))
    ensures StaleOk(g[..|g| - 1], StaleAfterPop(g, stale))
  {
    hide Retire;
    var outer, stale1 := g[..|g| - 1], StaleAfterPop(g, stale);
    forall e: Entry | e.Live? ensures e in Retire(s, |g|) <==> InScopes(outer, e) || e in stale1 {
      InRetired(s, |g|, e);
      assert e in s <==> InScopes(g, e) || e in stale;
    }
    forall e | e in stale1 ensures e.Live? && e.depth <= |outer| && !InScopes(outer, e) {
      if e.depth < |g| - 1 { assert !InScopes(g, e); }
    }
  }

  lemma {:induction false} UsedSame(s: seq<Entry>, t: seq<Entry>)
    requires |t| == |s| && forall j :: 0 <= j < |s| ==> (t[j] == Empty <==> s[j] == Empty)
    ensures Used(t) == Used(s)
  {
    if s != [] { UsedSame(s[..|s| - 1], t[..|s| - 1]); }
  }

  /** Every entry of a name lies before the first empty slot of its probe sequence. */
  lemma AllProbed(s: seq<Entry>, hash: Name -> nat, x: Name, p: nat)
    requires Reachable(s, hash) && p < |s| && s[At(hash(x) % |s|, p, |s|)] == Empty
    ensures forall j :: 0 <= j < |s| && s[j].Live? && s[j].name == x ==> Dist(hash(x) % |s|, j, |s|) < p
  {
    forall j | 0 <= j < |s| && s[j].Live? && s[j].name == x ensures Dist(hash(x) % |s|, j, |s|) < p {
      assert PathTo(s, hash(x) % |s|, j);
      assert At(hash(x) % |s|, Dist(hash(x) % |s|, j, |s|), |s|) == j;
    }
  }
}
