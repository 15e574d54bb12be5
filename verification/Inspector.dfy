/** The inspector as it runs: a visitor that fills caller-supplied arrays as it goes, a decoder with a mutable
    walk, and the count of incoherent buffer entries. */
module Inspector {
  import opened Values
  import opened PageTable
  import opened PageAccount

  /** `valid_frame_reference`: the path is an array indexed by level, and only levels from `level` up are this
      path's. */
  method ValidFrameReference(vm: Vm, frame: nat, path: array<nat>, level: nat, ghost above: set<nat>) returns (ok: bool)
    requires path.Length == LEVELS && level < LEVELS && OnPath(path, level, above)
    ensures ok == ReferenceOk(vm, frame, above)
  {
    if frame >= NUM_FRAME || !vm.owned(frame) { return false; }
    for ancestor := level to LEVELS
      invariant forall a :: level <= a < ancestor ==> path[a] != frame
    {
      if frame == path[ancestor] { return false; }
    }
    ok := true;
  }

  /** The tables on the path from `level` up to the root are exactly `above`. */
  ghost predicate OnPath(path: array<nat>, level: nat, above: set<nat>)
    reads path
  {
    && path.Length == LEVELS
    && (forall a :: level <= a < LEVELS ==> path[a] in above)
    && forall f :: f in above ==> exists a :: level <= a < LEVELS && path[a] == f
  }

  method AddToPath(path: array<nat>, level: nat, table: nat, ghost above: set<nat>) returns (ghost here: set<nat>)
    requires level < LEVELS && OnPath(path, level + 1, above)
    modifies path
    ensures here == above + {table} && OnPath(path, level, here)
  {
    ghost var before := path[..];
    path[level] := table;
    here := above + {table};
    assert forall a :: level < a < LEVELS ==> path[a] == before[a];
    forall f | f in here ensures exists a :: level <= a < LEVELS && path[a] == f {
      if f == table {
        assert path[level] == f;
      } else {
        var a :| level + 1 <= a < LEVELS && before[a] == f;
        assert path[a] == f;
      }
    }
  }

  /** The first entries of a list, as many as fit. */
  ghost predicate Holds<T>(out: array<T>, list: seq<T>)
    reads out
  {
    forall i :: 0 <= i < |list| && i < out.Length ==> out[i] == list[i]
  }

  class Visitor {
    const vm: Vm
    const maps: array<Mapping>
    const tables: array<nat>
    const path: array<nat>
    var tableFrames: nat
    var mappings: nat
    var malformed: nat
    /** All that has been reported so far, whether or not it fitted. */
    ghost var seen: Report

    ghost predicate Valid()
      reads this, maps, tables
    {
      && path.Length == LEVELS && path != tables
      && tableFrames == |seen.tables| && mappings == |seen.maps| && malformed == seen.malformed
      && Holds(maps, seen.maps) && Holds(tables, seen.tables)
    }

    constructor (vm: Vm, maps: array<Mapping>, tables: array<nat>)
      ensures Valid() && this.vm == vm && this.maps == maps && this.tables == tables && fresh(path) && seen == NOTHING
    {
      this.vm := vm;
      this.maps := maps;
      this.tables := tables;
      path := new nat[LEVELS](_ => 0);
      tableFrames, mappings, malformed := 0, 0, 0;
      seen := NOTHING;
    }

    method RecordTable(table: nat)
      requires Valid()
      modifies this, tables
      ensures Valid() && seen == Join(old(seen), Report([], [table], 0))
    {
      if tableFrames < tables.Length { tables[tableFrames] := table; }
      tableFrames := tableFrames + 1;
      seen := Join(seen, Report([], [table], 0));
    }

    method Malformed()
      requires Valid()
      modifies this
      ensures Valid() && seen == Join(old(seen), BAD)
    {
      malformed := malformed + 1;
      seen := Join(seen, BAD);
    }

    method RecordMapping(m: Mapping)
      requires Valid()
      modifies this, maps
      ensures Valid() && seen == Join(old(seen), Report([m], [], 0))
    {
      if mappings < maps.Length { maps[mappings] := m; }
      mappings := mappings + 1;
      seen := Join(seen, Report([m], [], 0));
    }

    /** `visit_table`. */
    method VisitTable(table: nat, level: nat, prefix: nat, ghost above: set<nat>)
      requires Valid() && level < LEVELS && OnPath(path, level + 1, above)
      modifies this, maps, tables, path
      ensures Valid() && seen == Join(old(seen), Visit(vm, table, level, above, prefix))
      ensures forall a :: level < a < LEVELS ==> path[a] == old(path[a])
      decreases level, 1
    {
      hide Visit, Entry, Join;
      path[level] := table;
      RecordTable(table);
      ghost var here := above + {table};
      ghost var goal := Join(old(seen), Visit(vm, table, level, above, prefix));
      VisitUnfold(vm, table, level, above, prefix, old(seen));
      var index := 0;
      while index < ENTRIES
        invariant Valid() && index <= ENTRIES
        invariant path[level] == table && forall a :: level < a < LEVELS ==> path[a] == old(path[a])
        invariant Join(seen, Entries(vm, table, level, here, prefix, index)) == goal
        decreases ENTRIES - index
      {
        EntriesUnfold(vm, table, level, here, prefix, index, seen);
        VisitEntry(table, level, prefix, index, here);
        index := index + 1;
      }
      JoinNothing(seen);
    }

    /** One entry of a table. */
    method VisitEntry(table: nat, level: nat, prefix: nat, index: nat, ghost here: set<nat>)
      requires Valid() && level < LEVELS && OnPath(path, level, here)
      modifies this, maps, tables, path
      ensures Valid() && seen == Join(old(seen), Entry(vm, table, level, here, prefix, index))
      ensures forall a :: level <= a < LEVELS ==> path[a] == old(path[a])
      decreases level, 0
    {
      hide Visit, Join;
      JoinNothing(seen);
      var pte := Pte(vm, table, index);
      if !Present(pte) { return; }
      var frame := FrameOf(pte);
      var va := EntryVa(prefix, index, level);
      var owned := ValidFrameReference(vm, frame, path, level, here);
      if level > 0 {
        if Flags(pte) != 1 || !owned {
          Malformed();
        } else {
          VisitTable(frame, level - 1, va, here);
        }
      } else if !PermissionsOk(Permissions(pte)) || !owned || va < USER_VA_BASE {
        Malformed();
      } else {
        RecordMapping(Mapping(va, frame, Permissions(pte)));
      }
    }

    /** `visit_all`. */
    method VisitRoot()
      requires Valid() && seen == NOTHING
      modifies this, maps, tables, path
      ensures Valid() && seen == VisitAll(vm)
    {
      hide Visit;
      JoinNothing(BAD);
      JoinNothing(Visit(vm, vm.root, LEVELS - 1, {}, 0));
      if vm.root == INVALID_FRAME { return; }
      if vm.root >= NUM_FRAME || !vm.owned(vm.root) {
        Malformed();
        return;
      }
      VisitTable(vm.root, LEVELS - 1, 0, {});
    }
  }

  lemma JoinNothing(a: Report)
    ensures Join(a, NOTHING) == a && Join(NOTHING, a) == a
  {
    assert a.maps + [] == a.maps && [] + a.maps == a.maps && a.tables + [] == a.tables && [] + a.tables == a.tables;
  }

  lemma JoinAssoc(a: Report, b: Report, c: Report)
    ensures Join(Join(a, b), c) == Join(a, Join(b, c))
  {
    assert (a.maps + b.maps) + c.maps == a.maps + (b.maps + c.maps);
    assert (a.tables + b.tables) + c.tables == a.tables + (b.tables + c.tables);
  }

  lemma VisitUnfold(vm: Vm, table: nat, level: nat, above: set<nat>, prefix: nat, before: Report)
    requires level < LEVELS
    ensures Join(Join(before, Report([], [table], 0)), Entries(vm, table, level, above + {table}, prefix, 0))
            == Join(before, Visit(vm, table, level, above, prefix))
  {
    hide Entries;
    JoinAssoc(before, Report([], [table], 0), Entries(vm, table, level, above + {table}, prefix, 0));
  }

  lemma EntriesUnfold(vm: Vm, table: nat, level: nat, path: set<nat>, prefix: nat, index: nat, before: Report)
    requires level < LEVELS && index < ENTRIES
    ensures Join(before, Entries(vm, table, level, path, prefix, index)) ==
            Join(Join(before, Entry(vm, table, level, path, prefix, index)),
                Entries(vm, table, level, path, prefix, index + 1))
  {
    hide Entry, Join;
    JoinAssoc(before, Entry(vm, table, level, path, prefix, index), Entries(vm, table, level, path, prefix, index + 1));
  }

  /** `sf_pt_summarize`: three numbers; with a good root none is malformed exactly when every present entry of every
      visited table is well formed, and otherwise only a missing root is no fault. */
  method Summarize(vm: Vm) returns (tableFrames: nat, mappings: nat, malformed: nat)
    ensures var r := VisitAll(vm); tableFrames == |r.tables| && mappings == |r.maps| && malformed == r.malformed
    ensures vm.root < 1024 && vm.owned(vm.root) ==>
              && tableFrames + mappings + malformed == 1 + PresentIn(vm, VisitAll(vm).tables)
              && (malformed == 0 <==> forall q :: Counted(vm, q) ==> WellFormed(vm, q))
    ensures !(vm.root < 1024 && vm.owned(vm.root)) ==>
              (tableFrames, mappings, malformed) == (0, 0, if vm.root == 0xffff_ffff_ffff_ffff then 0 else 1)
  {
    hide VisitAll, Counted, WellFormed, PresentIn;
    var noMaps, noTables := new Mapping[0], new nat[0];
    var v := new Visitor(vm, noMaps, noTables);
    v.VisitRoot();
    tableFrames, mappings, malformed := v.tableFrames, v.mappings, v.malformed;
    if vm.root < 1024 && vm.owned(vm.root) {
      TablesAddUp(vm);
      EntriesAddUp(vm);
    } else {
      ReportWithoutRoot(vm);
    }
  }

  /** `sf_pt_list_tables`: the root, then the frames of the well-formed references, depth first. */
  method ListTables(vm: Vm, out: array<nat>) returns (n: nat)
    modifies out
    ensures n == |VisitAll(vm).tables| && Holds(out, VisitAll(vm).tables)
    ensures vm.root < 1024 && vm.owned(vm.root) ==>
              n > 0 && (out.Length > 0 ==> out[0] == vm.root) && Holds(out, [vm.root] + TablesOf(vm, All(vm)))
  {
    hide VisitAll, TablesOf, All, MapsOf, FaultsOf;
    var none := new Mapping[0];
    var v := new Visitor(vm, none, out);
    v.VisitRoot();
    n := v.tableFrames;
    if vm.root < 1024 && vm.owned(vm.root) { ReportIsAccount(vm); }
  }

  /** `sf_pt_list_mappings`: the listing's first entries, and its whole length. */
  method ListMappings(vm: Vm, out: array<Mapping>) returns (n: nat)
    modifies out
    ensures n == |VisitAll(vm).maps| && Holds(out, VisitAll(vm).maps)
    ensures forall i :: 0 <= i < n && i < out.Length ==>
              Decode(vm, out[i].va) == Some(Leaf(out[i].frame, out[i].permissions))
    ensures forall i, j :: 0 <= i < j < n && j < out.Length ==> out[i].va < out[j].va
  {
    hide VisitAll, Decode;
    var none := new nat[0];
    var v := new Visitor(vm, out, none);
    v.VisitRoot();
    n := v.mappings;
    ghost var listed := VisitAll(vm).maps;
    ListedAscending(vm);
    forall i | 0 <= i < n && i < out.Length
      ensures Decode(vm, out[i].va) == Some(Leaf(out[i].frame, out[i].permissions))
    {
      assert listed[i] in listed;
      ListedAligned(vm, listed[i]);
      TraversalsAgree(vm, listed[i].va, Leaf(listed[i].frame, listed[i].permissions));
    }
  }

  /** `decode_leaf`. */
  method DecodeLeaf(vm: Vm, va: nat) returns (r: Option<Leaf>)
    ensures r == Decode(vm, va)
  {
    hide PermissionsOk, Permissions, Flags, FrameOf, Vpn, ReferenceOk;
    if va < USER_VA_BASE || va >= VA_LIMIT || vm.root >= NUM_FRAME || !vm.owned(vm.root) { return None; }
    var path := new nat[LEVELS](_ => 0);
    var table := vm.root;
    var level := LEVELS - 1;
    ghost var above: set<nat> := {};
    while level > 0
      invariant 0 <= level < LEVELS && OnPath(path, level + 1, above)
      invariant Descend(vm, table, level, above, va) == Decode(vm, va)
    {
      above := AddToPath(path, level, table, above);
      var pte := Pte(vm, table, Vpn(va, level));
      var owned := ValidFrameReference(vm, FrameOf(pte), path, level, above);
      if Flags(pte) != 1 || !owned { return None; }
      table := FrameOf(pte);
      level := level - 1;
    }
    above := AddToPath(path, 0, table, above);
    var leaf := Pte(vm, table, Vpn(va, 0));
    var owned := ValidFrameReference(vm, FrameOf(leaf), path, 0, above);
    if !Present(leaf) || !PermissionsOk(Permissions(leaf)) || !owned { return None; }
    r := Some(Leaf(FrameOf(leaf), Permissions(leaf)));
  }

  /** The entries that break coherence. */
  ghost function Broken(vm: Vm, tlb: seq<TlbEntry>, n: nat): set<nat>
    requires n <= |tlb|
  {
    set i: nat | i < n && Incoherent(vm, tlb[i], i)
  }

  /** `sf_pt_incoherent_tlb_entries`: 0 exactly when every valid entry is in its own place and equals a listed
      mapping. */
  method IncoherentEntries(vm: Vm, tlb: array<TlbEntry>) returns (count: nat)
    requires tlb.Length == TLB_ENTRIES
    ensures count == |Broken(vm, tlb[..], TLB_ENTRIES)|
    ensures count == 0 <==>
            forall i :: 0 <= i < 8 && tlb[i].valid ==>
              tlb[i].vpn % 8 == i
              && Mapping(tlb[i].vpn * 4096, tlb[i].frame, tlb[i].permissions) in VisitAll(vm).maps
  {
    hide VisitAll, Incoherent, Broken;
    count := 0;
    NothingBroken(vm, tlb[..]);
    for i := 0 to TLB_ENTRIES
      invariant count == |Broken(vm, tlb[..], i)|
    {
      var bad := IsIncoherent(vm, tlb[i], i);
      OneMore(vm, tlb[..], i);
      if bad { count := count + 1; }
    }
    NoneBroken(vm, tlb[..]);
  }

  lemma NothingBroken(vm: Vm, tlb: seq<TlbEntry>)
    ensures |Broken(vm, tlb, 0)| == 0
  {
    assert Broken(vm, tlb, 0) == {};
  }

  lemma OneMore(vm: Vm, tlb: seq<TlbEntry>, i: nat)
    requires i < |tlb|
    ensures |Broken(vm, tlb, i + 1)| == |Broken(vm, tlb, i)| + if Incoherent(vm, tlb[i], i) then 1 else 0
  {
    hide Incoherent;
    assert Broken(vm, tlb, i + 1) == Broken(vm, tlb, i) + if Incoherent(vm, tlb[i], i) then {i} else {};
  }

  method IsIncoherent(vm: Vm, e: TlbEntry, i: nat) returns (bad: bool)
    ensures bad == Incoherent(vm, e, i)
  {
    hide VisitAll, Decode;
    if !e.valid { return false; }
    var va := e.vpn * PAGE % TWO_64;
    if e.vpn >= VA_LIMIT / PAGE || va / PAGE % TLB_ENTRIES != i { return true; }
    var leaf := DecodeLeaf(vm, va);
    bad := leaf != Some(Leaf(e.frame, e.permissions));
  }

  lemma NoneBroken(vm: Vm, tlb: seq<TlbEntry>)
    requires |tlb| == TLB_ENTRIES
    ensures |Broken(vm, tlb, TLB_ENTRIES)| == 0 <==>
            forall i :: 0 <= i < 8 && tlb[i].valid ==>
              tlb[i].vpn % 8 == i
              && Mapping(tlb[i].vpn * 4096, tlb[i].frame, tlb[i].permissions) in VisitAll(vm).maps
  {
    hide VisitAll, Incoherent;
    forall i: nat | i < TLB_ENTRIES
      ensures !Incoherent(vm, tlb[i], i) <==>
              (tlb[i].valid ==>
                 tlb[i].vpn % 8 == i
                 && Mapping(tlb[i].vpn * 4096, tlb[i].frame, tlb[i].permissions) in VisitAll(vm).maps)
    {
      CoherentIffListed(vm, tlb[i], i);
    }
    var broken := Broken(vm, tlb, TLB_ENTRIES);
    if |broken| == 0 {
      forall i: nat | i < TLB_ENTRIES ensures !Incoherent(vm, tlb[i], i) {
        assert i in broken <==> Incoherent(vm, tlb[i], i);
      }
    } else {
      var i :| i in broken;
    }
  }
}
