/** What the visitor's report means, entry by entry.  An entry is named by its place: the indices that lead to it from
    the root.  Its word, its frame, its address and when it is well formed are stated on the memory itself. */
module PageAccount {
  import opened Values
  import opened PageTable

  type Place = seq<nat>

  /** The frame an entry names; no index names the root. */
  function Frame(vm: Vm, p: Place): nat
    decreases |p|, 1
  {
    if p == [] then vm.root else WordAt(vm, p) / 1024
  }

  /** The word of an entry: 512 words of 8 bytes fill the 4096 bytes of its table's frame. */
  function WordAt(vm: Vm, p: Place): nat
    requires p != []
    decreases |p|, 0
  {
    var n := |p| - 1;
    vm.data(4096 * Frame(vm, p[..n]) + 8 * p[n])
  }

  /** The first address an entry stands for: 1 GiB, 2 MiB and 4 KiB for each index. */
  function Va(p: Place): nat
    requires |p| <= 3
  {
    (if |p| > 0 then p[0] * 0x4000_0000 else 0) + (if |p| > 1 then p[1] * 0x20_0000 else 0) +
    (if |p| > 2 then p[2] * 0x1000 else 0)
  }

  /** A reference has the valid bit alone; a leaf has R, X, RX, RW or RWX beside it, and no leaf stands for the page at
      address 0.  The frame is allocated and is no table on the way. */
  predicate WellFormed(vm: Vm, p: Place)
    requires 1 <= |p| <= 3
  {
    && Frame(vm, p) < 1024 && vm.owned(Frame(vm, p))
    && (forall k :: 0 <= k < |p| ==> Frame(vm, p) != Frame(vm, p[..k]))
    && if |p| < 3 then WordAt(vm, p) % 1024 == 1 else WordAt(vm, p) % 1024 in {3, 7, 9, 11, 15} && Va(p) >= 4096
  }

  /** A table is visited when every entry on the way to it is well formed. */
  predicate Visited(vm: Vm, p: Place)
    decreases |p|
  {
    p == [] || (|p| <= 2 && p[|p| - 1] < 512 && WellFormed(vm, p) && Visited(vm, p[..|p| - 1]))
  }

  /** A present entry of a visited table. */
  predicate Counted(vm: Vm, q: Place) {
    1 <= |q| <= 3 && Visited(vm, q[..|q| - 1]) && q[|q| - 1] < 512 && WordAt(vm, q) % 2 == 1
  }

  /** Depth first: a table's entry comes before the entries below it, and those before the next entry. */
  ghost predicate Before(p: Place, q: Place) {
    exists k :: 0 <= k <= |p| && k < |q| && p[..k] == q[..k] && (k == |p| || p[k] < q[k])
  }

  // ----- the account -----

  /** The entries below place `p`, which is a table, from entry `i` of that table on. */
  function Under(vm: Vm, p: Place, i: nat): seq<Place>
    requires |p| <= 2 && i <= 512
    decreases 2 - |p|, 1, 512 - i
  {
    if i == 512 then [] else At(vm, p + [i]) + Under(vm, p, i + 1)
  }

  function At(vm: Vm, q: Place): seq<Place>
    requires 1 <= |q| <= 3
    decreases 3 - |q|, 0
  {
    if WordAt(vm, q) % 2 != 1 then []
    else if |q| < 3 && WellFormed(vm, q) then [q] + Under(vm, q, 0)
    else [q]
  }

  /** What a list of entries amounts to. */
  function MapsOf(vm: Vm, ps: seq<Place>): seq<Mapping> {
    if ps == [] then [] else MapOf(vm, ps[0]) + MapsOf(vm, ps[1..])
  }

  function MapOf(vm: Vm, q: Place): seq<Mapping> {
    if |q| == 3 && WellFormed(vm, q) then [Mapping(Va(q), Frame(vm, q), WordAt(vm, q) % 1024 - 1)] else []
  }

  function TablesOf(vm: Vm, ps: seq<Place>): seq<nat> {
    if ps == [] then [] else TableOf(vm, ps[0]) + TablesOf(vm, ps[1..])
  }

  function TableOf(vm: Vm, q: Place): seq<nat> {
    if 1 <= |q| < 3 && WellFormed(vm, q) then [Frame(vm, q)] else []
  }

  function FaultsOf(vm: Vm, ps: seq<Place>): nat {
    if ps == [] then 0
    else (if 1 <= |ps[0]| <= 3 && WellFormed(vm, ps[0]) then 0 else 1) + FaultsOf(vm, ps[1..])
  }

  function ReportOf(vm: Vm, ps: seq<Place>): Report {
    Report(MapsOf(vm, ps), TablesOf(vm, ps), FaultsOf(vm, ps))
  }

  lemma {:induction false} MapsAdd(vm: Vm, a: seq<Place>, b: seq<Place>)
    ensures MapsOf(vm, a + b) == MapsOf(vm, a) + MapsOf(vm, b)
  {
    hide MapOf;
    if a == [] {
      assert a + b == b;
    } else {
      MapsAdd(vm, a[1..], b);
      assert (a + b)[1..] == a[1..] + b;
    }
  }

  lemma {:induction false} TablesAdd(vm: Vm, a: seq<Place>, b: seq<Place>)
    ensures TablesOf(vm, a + b) == TablesOf(vm, a) + TablesOf(vm, b)
  {
    hide TableOf;
    if a == [] {
      assert a + b == b;
    } else {
      TablesAdd(vm, a[1..], b);
      assert (a + b)[1..] == a[1..] + b;
    }
  }

  lemma {:induction false} FaultsAdd(vm: Vm, a: seq<Place>, b: seq<Place>)
    ensures FaultsOf(vm, a + b) == FaultsOf(vm, a) + FaultsOf(vm, b)
  {
    hide WellFormed;
    if a == [] {
      assert a + b == b;
    } else {
      FaultsAdd(vm, a[1..], b);
      assert (a + b)[1..] == a[1..] + b;
    }
  }

  lemma ReportAdds(vm: Vm, a: seq<Place>, b: seq<Place>)
    ensures ReportOf(vm, a + b) == Join(ReportOf(vm, a), ReportOf(vm, b))
  {
    hide MapsOf, TablesOf, FaultsOf;
    MapsAdd(vm, a, b);
    TablesAdd(vm, a, b);
    FaultsAdd(vm, a, b);
  }

  lemma ReportOfOne(vm: Vm, q: Place)
    requires 1 <= |q| <= 3
    ensures ReportOf(vm, [q]) ==
            if !WellFormed(vm, q) then BAD
            else if |q| < 3 then Report([], [Frame(vm, q)], 0)
            else Report([Mapping(Va(q), Frame(vm, q), WordAt(vm, q) % 1024 - 1)], [], 0)
  {
    hide WellFormed, Frame, WordAt, Va;
    assert [q][1..] == [] && [q][0] == q;
    assert MapsOf(vm, []) == [] && TablesOf(vm, []) == [] && FaultsOf(vm, []) == 0;
  }

  // ----- the report is that of the entries -----

  /** The tables on the way to a table, itself included. */
  ghost function Way(vm: Vm, p: Place): set<nat> { set k | 0 <= k <= |p| :: Frame(vm, p[..k]) }

  lemma WayBelow(vm: Vm, p: Place, i: nat)
    ensures Way(vm, p + [i]) == Way(vm, p) + {Frame(vm, p + [i])}
  {
    hide Frame;
    var q := p + [i];
    assert q[..|q|] == q;
    assert forall k :: 0 <= k <= |p| ==> q[..k] == p[..k];
    forall f | f in Way(vm, p) ensures f in Way(vm, q) {
      var k :| 0 <= k <= |p| && f == Frame(vm, p[..k]);
      assert f == Frame(vm, q[..k]);
    }
  }

  lemma OnTheWay(vm: Vm, p: Place, i: nat)
    ensures Frame(vm, p + [i]) !in Way(vm, p) <==>
            forall k :: 0 <= k < |p + [i]| ==> Frame(vm, p + [i]) != Frame(vm, (p + [i])[..k])
  {
    hide Frame;
    var q := p + [i];
    assert forall k :: 0 <= k <= |p| ==> q[..k] == p[..k];
  }

  /** One entry as the visitor reads it. */
  lemma EntryIs(vm: Vm, p: Place, i: nat)
    requires |p| <= 2 && i < 512
    ensures var q := p + [i];
            && Pte(vm, Frame(vm, p), i) == WordAt(vm, q) && FrameOf(WordAt(vm, q)) == Frame(vm, q)
            && EntryVa(Va(p), i, 2 - |p|) == Va(q)
            && (Present(WordAt(vm, q)) <==> WordAt(vm, q) % 2 == 1)
            && Flags(WordAt(vm, q)) == WordAt(vm, q) % 1024
            && (Present(WordAt(vm, q)) ==> Permissions(WordAt(vm, q)) == WordAt(vm, q) % 1024 - 1)
  {
    var q := p + [i];
    assert q[..|q| - 1] == p;
    Parity(WordAt(vm, q));
  }

  lemma Parity(w: nat)
    ensures w % 1024 % 2 == w % 2
  {
  }

  lemma WellFormedIs(vm: Vm, p: Place, i: nat)
    requires |p| <= 2 && i < 512 && Present(WordAt(vm, p + [i]))
    ensures var q := p + [i]; var w := WordAt(vm, q);
            WellFormed(vm, q) <==>
              ReferenceOk(vm, FrameOf(w), Way(vm, p))
              && (if |p| < 2 then Flags(w) == 1 else PermissionsOk(Permissions(w)) && Va(q) >= USER_VA_BASE)
  {
    hide Way, Frame, WordAt, Va, Pte;
    EntryIs(vm, p, i);
    OnTheWay(vm, p, i);
  }

  lemma {:induction false} EntryAccount(vm: Vm, p: Place, i: nat)
    requires |p| <= 2 && i < 512
    ensures Entry(vm, Frame(vm, p), 2 - |p|, Way(vm, p), Va(p), i) == ReportOf(vm, At(vm, p + [i]))
    decreases 2 - |p|, 0
  {
    hide Frame, WordAt, Va, Way, WellFormed, ReportOf, Under, Entries, Pte, Flags, FrameOf, Present, Permissions,
         ReferenceOk, PermissionsOk;
    var q := p + [i];
    EntryIs(vm, p, i);
    ReportOfOne(vm, q);
    assert ReportOf(vm, []) == NOTHING by { ReportOfNone(vm); }
    if Present(WordAt(vm, q)) {
      WellFormedIs(vm, p, i);
      if |p| < 2 && WellFormed(vm, q) {
        EntriesAccount(vm, q, 0);
        WayBelow(vm, p, i);
        ReportAdds(vm, [q], Under(vm, q, 0));
      }
    }
  }

  lemma ReportOfNone(vm: Vm)
    ensures ReportOf(vm, []) == NOTHING
  {
  }

  lemma {:induction false} EntriesAccount(vm: Vm, p: Place, i: nat)
    requires |p| <= 2 && i <= 512
    ensures Entries(vm, Frame(vm, p), 2 - |p|, Way(vm, p), Va(p), i) == ReportOf(vm, Under(vm, p, i))
    decreases 2 - |p|, 1, 512 - i
  {
    hide Frame, Va, Way, ReportOf, At, Entry;
    if i == 512 {
      ReportOfNone(vm);
    } else {
      EntryAccount(vm, p, i);
      EntriesAccount(vm, p, i + 1);
      ReportAdds(vm, At(vm, p + [i]), Under(vm, p, i + 1));
    }
  }

  // ----- the entries are those of the visited tables, in order -----

  lemma {:induction false} AtBelongs(vm: Vm, q: Place, c: Place)
    requires 1 <= |q| <= 3 && Visited(vm, q[..|q| - 1]) && q[|q| - 1] < 512
    ensures c in At(vm, q) <==> Counted(vm, c) && q <= c
    decreases 3 - |q|, 0
  {
    hide Under, WellFormed, WordAt;
    if q < c && Counted(vm, c) { OneDeeper(vm, q, c); }
    if |q| < 3 && WellFormed(vm, q) { UnderBelongs(vm, q, 0, c); }
    assert q <= c ==> q == c || q < c;
  }

  lemma {:induction false} VisitedAbove(vm: Vm, p: Place, q: Place)
    requires Visited(vm, p) && q <= p
    ensures Visited(vm, q)
    decreases |p|
  {
    hide WellFormed;
    if q != p { VisitedAbove(vm, p[..|p| - 1], q); }
  }

  /** What is counted below an entry is counted below a well-formed one that is present. */
  lemma OneDeeper(vm: Vm, q: Place, c: Place)
    requires 1 <= |q| && q < c && Counted(vm, c)
    ensures |q| < 3 && WellFormed(vm, q) && WordAt(vm, q) % 2 == 1
  {
    hide Frame, WordAt;
    VisitedAbove(vm, c[..|c| - 1], q);
    Parity(WordAt(vm, q));
  }

  lemma {:induction false} UnderBelongs(vm: Vm, p: Place, i: nat, c: Place)
    requires |p| <= 2 && i <= 512 && Visited(vm, p)
    ensures c in Under(vm, p, i) <==> Counted(vm, c) && p < c && c[|p|] >= i
    decreases 2 - |p|, 1, 512 - i
  {
    hide At, WordAt, WellFormed;
    if i < 512 {
      var q := p + [i];
      assert q[..|q| - 1] == p;
      AtBelongs(vm, q, c);
      UnderBelongs(vm, p, i + 1, c);
      assert q <= c <==> p < c && c[|p|] == i;
    } else if Counted(vm, c) && p < c {
      IndicesAreSmall(vm, c, |p|);
    }
  }

  lemma {:induction false} VisitedSmall(vm: Vm, p: Place, k: nat)
    requires Visited(vm, p) && k < |p|
    ensures p[k] < 512
    decreases |p|
  {
    hide WellFormed;
    if k < |p| - 1 { VisitedSmall(vm, p[..|p| - 1], k); }
  }

  lemma IndicesAreSmall(vm: Vm, c: Place, k: nat)
    requires Counted(vm, c) && k < |c|
    ensures c[k] < 512
  {
    hide Visited, WordAt;
    if k < |c| - 1 { VisitedSmall(vm, c[..|c| - 1], k); }
  }

  ghost predicate Sorted(ps: seq<Place>) { forall i, j :: 0 <= i < j < |ps| ==> Before(ps[i], ps[j]) }

  lemma SortedJoin(a: seq<Place>, b: seq<Place>)
    requires Sorted(a) && Sorted(b) && forall p, q :: p in a && q in b ==> Before(p, q)
    ensures Sorted(a + b)
  {
    hide Before;
  }

  lemma {:induction false} AtSorted(vm: Vm, q: Place)
    requires 1 <= |q| <= 3 && Visited(vm, q[..|q| - 1]) && q[|q| - 1] < 512
    ensures Sorted(At(vm, q))
    decreases 3 - |q|, 0
  {
    hide Under, WellFormed, WordAt, Before, Visited, Counted;
    if |q| < 3 && WellFormed(vm, q) && WordAt(vm, q) % 2 == 1 {
      assert Visited(vm, q) by { VisitedBelow(vm, q); }
      UnderSorted(vm, q, 0);
      forall p, c | p in [q] && c in Under(vm, q, 0) ensures Before(p, c) {
        UnderBelongs(vm, q, 0, c);
        Deeper(q, c);
      }
      SortedJoin([q], Under(vm, q, 0));
    }
  }

  lemma VisitedBelow(vm: Vm, q: Place)
    requires 1 <= |q| <= 2 && Visited(vm, q[..|q| - 1]) && q[|q| - 1] < 512 && WellFormed(vm, q)
    ensures Visited(vm, q)
  {
  }

  lemma Deeper(p: Place, c: Place)
    requires p < c
    ensures Before(p, c)
  {
    assert p[..|p|] == c[..|p|];
  }

  lemma Aside(q: Place, n: nat, b: Place, c: Place)
    requires n < |b| && n < |c| && q == b[..n] && q == c[..n] && b[n] < c[n]
    ensures Before(b, c)
  {
  }

  lemma {:induction false} UnderSorted(vm: Vm, p: Place, i: nat)
    requires |p| <= 2 && i <= 512 && Visited(vm, p)
    ensures Sorted(Under(vm, p, i))
    decreases 2 - |p|, 1, 512 - i
  {
    hide At, WordAt, WellFormed, Before, Visited, Counted;
    if i < 512 {
      var q := p + [i];
      assert q[..|q| - 1] == p;
      AtSorted(vm, q);
      UnderSorted(vm, p, i + 1);
      forall b, c | b in At(vm, q) && c in Under(vm, p, i + 1) ensures Before(b, c) {
        AtBelongs(vm, q, b);
        UnderBelongs(vm, p, i + 1, c);
        Aside(p, |p|, b, c);
      }
      SortedJoin(At(vm, q), Under(vm, p, i + 1));
    }
  }

  // ----- the whole report -----

  /** All present entries of all visited tables, depth first. */
  function All(vm: Vm): seq<Place> { Under(vm, [], 0) }

  /** They are exactly those, each once, in that order. */
  lemma AllCounted(vm: Vm)
    ensures Sorted(All(vm)) && forall c :: c in All(vm) <==> Counted(vm, c)
  {
    hide Under, Visited;
    assert Visited(vm, []) by { RootVisited(vm); }
    UnderSorted(vm, [], 0);
    forall c ensures c in All(vm) <==> Counted(vm, c) { UnderBelongs(vm, [], 0, c); }
  }

  lemma RootVisited(vm: Vm)
    ensures Visited(vm, [])
  {
  }

  /** With a good root the report is the account of these entries: the well-formed leaves are the mappings, the root
      and the frames of the well-formed references are the tables, in that order, and the others are malformed. */
  lemma ReportIsAccount(vm: Vm)
    requires vm.root < 1024 && vm.owned(vm.root)
    ensures VisitAll(vm) == Report(MapsOf(vm, All(vm)), [vm.root] + TablesOf(vm, All(vm)), FaultsOf(vm, All(vm)))
  {
    hide Entries, Under, MapsOf, TablesOf, FaultsOf;
    EntriesAccount(vm, [], 0);
    assert Way(vm, []) == {vm.root} == {} + {vm.root} by { WayOfRoot(vm); }
  }

  lemma WayOfRoot(vm: Vm)
    ensures Way(vm, []) == {vm.root}
  {
    var p: Place := [];
    assert p[..0] == [];
    assert forall k :: 0 <= k <= |p| ==> p[..k] == [];
  }

  /** Without a good root nothing is visited: a missing root is no fault, any other is one. */
  lemma ReportWithoutRoot(vm: Vm)
    requires !(vm.root < 1024 && vm.owned(vm.root))
    ensures VisitAll(vm) == Report([], [], if vm.root == 0xffff_ffff_ffff_ffff then 0 else 1)
  {
  }

  lemma {:induction false} EveryEntryOnce(vm: Vm, ps: seq<Place>)
    ensures |ps| == |MapsOf(vm, ps)| + |TablesOf(vm, ps)| + FaultsOf(vm, ps)
    ensures FaultsOf(vm, ps) == 0 <==> forall q :: q in ps ==> 1 <= |q| <= 3 && WellFormed(vm, q)
  {
    hide WellFormed, Frame, WordAt, Va;
    if ps != [] {
      EveryEntryOnce(vm, ps[1..]);
      assert ps == [ps[0]] + ps[1..];
    }
  }

  /** Every present entry is a mapping, or leads to a listed table, or is malformed. */
  lemma EntriesAddUp(vm: Vm)
    requires vm.root < 1024 && vm.owned(vm.root)
    ensures var r := VisitAll(vm); |All(vm)| == |r.maps| + |r.tables| - 1 + r.malformed
    ensures VisitAll(vm).malformed == 0 <==> forall q :: Counted(vm, q) ==> WellFormed(vm, q)
  {
    hide VisitAll, All, MapsOf, TablesOf, FaultsOf, WellFormed;
    ReportIsAccount(vm);
    EveryEntryOnce(vm, All(vm));
    AllCounted(vm);
  }

  // ----- counted table by table -----

  /** Present entries of the table in a frame, from entry `i` on. */
  function PresentFrom(vm: Vm, frame: nat, i: nat): nat
    requires i <= 512
    decreases 512 - i
  {
    if i == 512 then 0
    else (if vm.data(4096 * frame + 8 * i) % 2 == 1 then 1 else 0) + PresentFrom(vm, frame, i + 1)
  }

  function PresentIn(vm: Vm, tables: seq<nat>): nat {
    if tables == [] then 0 else PresentFrom(vm, tables[0], 0) + PresentIn(vm, tables[1..])
  }

  lemma {:induction false} PresentAdds(vm: Vm, a: seq<nat>, b: seq<nat>)
    ensures PresentIn(vm, a + b) == PresentIn(vm, a) + PresentIn(vm, b)
  {
    hide PresentFrom;
    if a == [] {
      assert a + b == b;
    } else {
      PresentAdds(vm, a[1..], b);
      assert (a + b)[1..] == a[1..] + b;
    }
  }

  lemma NothingPresent(vm: Vm)
    ensures PresentIn(vm, TablesOf(vm, [])) == 0
  {
  }

  lemma {:induction false} AtCount(vm: Vm, q: Place)
    requires 1 <= |q| <= 3
    ensures PresentIn(vm, TablesOf(vm, At(vm, q))) + (if WordAt(vm, q) % 2 == 1 then 1 else 0) == |At(vm, q)|
    decreases 3 - |q|, 0
  {
    hide Under, WellFormed, WordAt, Frame, PresentFrom;
    assert [q][1..] == [] && TablesOf(vm, []) == [];
    if |q| < 3 && WellFormed(vm, q) && WordAt(vm, q) % 2 == 1 {
      UnderCount(vm, q, 0);
      TablesAdd(vm, [q], Under(vm, q, 0));
      PresentAdds(vm, [Frame(vm, q)], TablesOf(vm, Under(vm, q, 0)));
      assert [Frame(vm, q)][1..] == [];
    }
  }

  lemma {:induction false} UnderCount(vm: Vm, p: Place, i: nat)
    requires |p| <= 2 && i <= 512
    ensures PresentFrom(vm, Frame(vm, p), i) + PresentIn(vm, TablesOf(vm, Under(vm, p, i))) == |Under(vm, p, i)|
    decreases 2 - |p|, 1, 512 - i
  {
    hide At, Frame, TablesOf, PresentIn;
    if i == 512 {
      assert PresentIn(vm, TablesOf(vm, [])) == 0 by { NothingPresent(vm); }
    } else {
      var q := p + [i];
      assert q[..|q| - 1] == p;
      AtCount(vm, q);
      UnderCount(vm, p, i + 1);
      TablesAdd(vm, At(vm, q), Under(vm, p, i + 1));
      PresentAdds(vm, TablesOf(vm, At(vm, q)), TablesOf(vm, Under(vm, p, i + 1)));
    }
  }

  /** The listed tables, with repetition, hold as many present entries as are mappings, further tables or
      malformed. */
  lemma TablesAddUp(vm: Vm)
    requires vm.root < 1024 && vm.owned(vm.root)
    ensures var r := VisitAll(vm); PresentIn(vm, r.tables) == |r.maps| + |r.tables| - 1 + r.malformed
  {
    hide VisitAll, Under, TablesOf, MapsOf, FaultsOf, PresentFrom, PresentIn;
    ReportIsAccount(vm);
    EntriesAddUp(vm);
    UnderCount(vm, [], 0);
    PresentAdds(vm, [vm.root], TablesOf(vm, All(vm)));
    assert PresentIn(vm, [vm.root]) == PresentFrom(vm, vm.root, 0) by { PresentInOne(vm, vm.root); }
  }

  lemma PresentInOne(vm: Vm, table: nat)
    ensures PresentIn(vm, [table]) == PresentFrom(vm, table, 0)
  {
    assert [table][1..] == [];
  }

  // ----- layout -----

  /** A word built from a frame number and flags gives both back. */
  lemma WordParts(frame: nat, flags: nat)
    requires flags < 1024 && frame * 1024 + flags < TWO_64
    ensures var w: Word := frame * 1024 + flags;
            && FrameOf(w) == frame && Flags(w) == flags
            && (Present(w) <==> flags % 2 == 1)
            && Permissions(w) == if Present(w) then flags - 1 else flags
  {
  }
}
