/** Interned identifiers: chains of handles, one chain a bucket; and why comparing handles is comparing names. */
module Interner {
  import opened Values
  import opened Symtab

  const BUCKETS: nat := 1024

  class InternTable {
    const hash: string -> nat
    /** Handles of each bucket, the latest first. */
    var chains: array<seq<nat>>
    /** The text each handle stands for. */
    var texts: seq<string>

    ghost predicate Valid()
      reads this, chains
    {
      && chains.Length == BUCKETS
      && (forall b, i :: 0 <= b < BUCKETS && 0 <= i < |chains[b]| ==> chains[b][i] < |texts|)
      && (forall h :: 0 <= h < |texts| ==> h in chains[hash(texts[h]) % BUCKETS])
      && Canonical(texts)
    }

    constructor (hash: string -> nat)
      ensures Valid() && fresh(chains) && texts == [] && this.hash == hash
    {
      this.hash := hash;
      chains := new seq<nat>[BUCKETS](_ => []);
      texts := [];
    }

    /** `intern`: the handle of an equal text if there is one, else a new handle at the head of its chain. */
    method Intern(s: string) returns (h: nat)
      requires Valid()
      modifies this, chains
      ensures Valid() && chains == old(chains)
      ensures old(texts) <= texts && h < |texts| && texts[h] == s
      ensures s in old(texts) ==> texts == old(texts)
    {
      var b := hash(s) % BUCKETS;
      for i := 0 to |chains[b]|
        invariant forall j :: 0 <= j < i ==> texts[chains[b][j]] != s
      {
        if texts[chains[b][i]] == s { return chains[b][i]; }
      }
      NotYet(s, b);
      h := |texts|;
      texts := texts + [s];
      chains[b] := [h] + chains[b];
      forall k | 0 <= k < |texts| ensures k in chains[hash(texts[k]) % BUCKETS] {
        if k < h { assert k in old(chains[hash(texts[k]) % BUCKETS]); }
      }
    }

    /** A text missing from its own chain is missing altogether. */
    lemma NotYet(s: string, b: nat)
      requires Valid() && b == hash(s) % BUCKETS
      requires forall j :: 0 <= j < |chains[b]| ==> texts[chains[b][j]] != s
      ensures s !in texts
    {
      forall h | 0 <= h < |texts| ensures texts[h] != s {
        assert h in chains[hash(texts[h]) % BUCKETS];
      }
    }
  }

  /** Different handles stand for different texts. */
  ghost predicate Canonical(texts: seq<string>) {
    forall i, j :: 0 <= i < j < |texts| ==> texts[i] != texts[j]
  }

  /** Interns a whole list of names, one after the other: handles are equal exactly when the names are, and no
      handle ever changes its text. */
  method InternAll(t: InternTable, names: seq<string>) returns (handles: seq<nat>)
    requires t.Valid()
    modifies t, t.chains
    ensures t.Valid() && old(t.texts) <= t.texts && |handles| == |names|
    ensures forall i :: 0 <= i < |names| ==> handles[i] < |t.texts| && t.texts[handles[i]] == names[i]
    ensures forall i, j :: 0 <= i < |names| && 0 <= j < |names| ==> (handles[i] == handles[j] <==> names[i] == names[j])
  {
    handles := [];
    for n := 0 to |names|
      invariant t.Valid() && t.chains == old(t.chains) && old(t.texts) <= t.texts && |handles| == n
      invariant forall i :: 0 <= i < n ==> handles[i] < |t.texts| && t.texts[handles[i]] == names[i]
    {
      var h := t.Intern(names[n]);
      handles := handles + [h];
    }
  }

  // ----- the symbol table on handles -----

  /** The table compares handles, and hashes the text a handle stands for. */
  predicate Written(texts: seq<string>, s: seq<Slot<nat>>) {
    forall j :: 0 <= j < |s| && s[j].Live? ==> s[j].name < |texts|
  }

  function SpelledSlot(texts: seq<string>, e: Slot<nat>): Entry
    requires e.Live? ==> e.name < |texts|
  {
    match e
    case Empty => Empty
    case Tomb => Tomb
    case Live(h, ty, slot, depth) => Live(texts[h], ty, slot, depth)
  }

  /** The same table with each handle replaced by its text. */
  function Spelled(texts: seq<string>, s: seq<Slot<nat>>): (t: seq<Entry>)
    requires Written(texts, s)
    ensures |t| == |s|
  {
    seq(|s|, j requires 0 <= j < |s| => SpelledSlot(texts, s[j]))
  }

  /** Probing on handles keeps the entry that probing on names keeps. */
  lemma {:induction false} BestOnHandles(texts: seq<string>, s: seq<Slot<nat>>, h: nat, b: nat, p: nat)
    requires Canonical(texts) && Written(texts, s) && h < |texts| && b < |s| && p <= |s|
    ensures Best(s, h, b, p) == Best(Spelled(texts, s), texts[h], b, p)
  {
    if p > 0 {
      BestOnHandles(texts, s, h, b, p - 1);
      var e := s[At(b, p - 1, |s|)];
      assert e.Live? ==> (e.name == h <==> texts[e.name] == texts[h]);
    }
  }

  lemma {:induction false} ChainOnHandles(texts: seq<string>, s: seq<Slot<nat>>, b: nat, p: nat)
    requires Written(texts, s) && b < |s| && p <= |s|
    ensures ChainLength(s, b, p) == ChainLength(Spelled(texts, s), b, p)
    decreases |s| - p
  {
    if p < |s| { ChainOnHandles(texts, s, b, p + 1); }
  }

  /** The table on handles answers as the table on names, after any interning: a lookup by pointer finds the
      entry a lookup by text would find. */
  lemma HandlesAnswerAsNames(texts: seq<string>, s: seq<Slot<nat>>, h: nat, hash: string -> nat)
    requires Canonical(texts) && Written(texts, s) && h < |texts| && s != []
    ensures FirstDeepest(s, h, hash(texts[h]) % |s|)
            == FirstDeepest(Spelled(texts, s), texts[h], hash(texts[h]) % |s|)
  {
    var b := hash(texts[h]) % |s|;
    ChainOnHandles(texts, s, b, 0);
    BestOnHandles(texts, s, h, b, ChainLength(s, b, 0));
  }

  /** Writing an entry by handle writes it by name, and later interning changes no name in the table. */
  lemma WritesAgree(texts: seq<string>, more: seq<string>, s: seq<Slot<nat>>, j: nat, e: Slot<nat>)
    requires Written(texts, s) && j < |s| && (e.Live? ==> e.name < |texts|)
    ensures Written(texts, s[j := e]) && Spelled(texts, s[j := e]) == Spelled(texts, s)[j := SpelledSlot(texts, e)]
    ensures Written(texts + more, s) && Spelled(texts + more, s) == Spelled(texts, s)
  {
  }
}
