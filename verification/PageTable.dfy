/** The three-level page table as data: entry layout, what a table lists, and what one address decodes to. */
module PageTable {
  import opened Values

  const PAGE: nat := 4096
  const ENTRIES: nat := 512
  const NUM_FRAME: nat := 1024
  const USER_VA_BASE: nat := PAGE
  const VA_LIMIT: nat := 0x80_0000_0000
  const LEVELS: nat := 3

  type Word = Bits

  /** The physical memory (the word at each byte offset), the frame allocator and the root. */
  datatype Vm = Vm(root: nat, owned: nat -> bool, data: nat -> Word)

  const INVALID_FRAME: nat := TWO_64 - 1

  // ----- layout -----

  function FrameOf(pte: Word): nat { pte / 1024 }

  function Flags(pte: Word): nat { pte % 1024 }

  predicate Present(pte: Word) { Flags(pte) % 2 == 1 }

  /** The flag bits without the valid bit. */
  function Permissions(pte: Word): nat { Flags(pte) - Flags(pte) % 2 }

  const R: nat := 2
  const W: nat := 4
  const X: nat := 8

  /** A non-empty subset of R, W, X, where W needs R. */
  predicate PermissionsOk(p: nat) {
    p == R || p == X || p == R + X || p == R + W || p == R + W + X
  }

  /** Bytes of address space one entry of a level covers. */
  function Span(level: nat): nat
    requires level < LEVELS
  {
    if level == 0 then PAGE else if level == 1 then 0x20_0000 else 0x4000_0000
  }

  /** The first address of entry `index` in a table for the addresses from `prefix` on. */
  function EntryVa(prefix: nat, index: nat, level: nat): (va: nat)
    requires level < LEVELS
  {
    if level == 0 then prefix + index * 4096
    else if level == 1 then prefix + index * 0x20_0000
    else prefix + index * 0x4000_0000
  }

  function Vpn(va: nat, level: nat): (i: nat)
    requires level < LEVELS
    ensures i < ENTRIES
  {
    va / Span(level) % ENTRIES
  }

  /** Entries follow each other at the distance of one span, and a table's 512 entries fill one span of the
      level above. */
  lemma EntriesAdjoin(prefix: nat, index: nat, level: nat)
    requires level < LEVELS
    ensures EntryVa(prefix, index + 1, level) == EntryVa(prefix, index, level) + Span(level)
    ensures EntryVa(prefix, 0, level) == prefix
    ensures level > 0 ==> EntryVa(prefix, ENTRIES, level - 1) == prefix + Span(level)
  {
  }

  function Pte(vm: Vm, table: nat, index: nat): Word { vm.data(table * PAGE + index * 8) }

  /** A reference names an allocated frame that is no table of this path. */
  predicate ReferenceOk(vm: Vm, frame: nat, path: set<nat>) {
    frame < NUM_FRAME && vm.owned(frame) && frame !in path
  }

  predicate RootOk(vm: Vm) { vm.root < NUM_FRAME && vm.owned(vm.root) }

  // ----- what the visitor reports -----

  datatype Mapping = Mapping(va: nat, frame: nat, permissions: nat)

  datatype Report = Report(maps: seq<Mapping>, tables: seq<nat>, malformed: nat)

  const NOTHING: Report := Report([], [], 0)
  const BAD: Report := Report([], [], 1)

  function Join(a: Report, b: Report): Report {
    Report(a.maps + b.maps, a.tables + b.tables, a.malformed + b.malformed)
  }

  /** The table at `table`, below the tables `above`, for the addresses from `prefix` on. */
  function Visit(vm: Vm, table: nat, level: nat, above: set<nat>, prefix: nat): Report
    requires level < LEVELS
    decreases level, 2
  {
    Join(Report([], [table], 0), Entries(vm, table, level, above + {table}, prefix, 0))
  }

  function Entries(vm: Vm, table: nat, level: nat, path: set<nat>, prefix: nat, index: nat): Report
    requires level < LEVELS && index <= ENTRIES
    decreases level, 1, ENTRIES - index
  {
    if index == ENTRIES then NOTHING
    else Join(Entry(vm, table, level, path, prefix, index), Entries(vm, table, level, path, prefix, index + 1))
  }

  function Entry(vm: Vm, table: nat, level: nat, path: set<nat>, prefix: nat, index: nat): Report
    requires level < LEVELS
    decreases level, 0
  {
    var pte := Pte(vm, table, index);
    var va := EntryVa(prefix, index, level);
    if !Present(pte) then NOTHING
    else if level > 0 then
      if Flags(pte) != 1 || !ReferenceOk(vm, FrameOf(pte), path) then BAD
      else Visit(vm, FrameOf(pte), level - 1, path, va)
    else if !PermissionsOk(Permissions(pte)) || !ReferenceOk(vm, FrameOf(pte), path) || va < USER_VA_BASE then BAD
    else Report([Mapping(va, FrameOf(pte), Permissions(pte))], [], 0)
  }

  /** What the visitor reports of the whole address space. */
  function VisitAll(vm: Vm): Report {
    if vm.root == INVALID_FRAME then NOTHING
    else if !RootOk(vm) then BAD
    else Visit(vm, vm.root, LEVELS - 1, {}, 0)
  }

  // ----- what one address decodes to -----

  datatype Leaf = Leaf(frame: nat, permissions: nat)

  function Descend(vm: Vm, table: nat, level: nat, above: set<nat>, va: nat): Option<Leaf>
    requires level < LEVELS
    decreases level
  {
    var pte := Pte(vm, table, Vpn(va, level));
    var path := above + {table};
    if level > 0 then
      if Flags(pte) != 1 || !ReferenceOk(vm, FrameOf(pte), path) then None
      else Descend(vm, FrameOf(pte), level - 1, path, va)
    else if !Present(pte) || !PermissionsOk(Permissions(pte)) || !ReferenceOk(vm, FrameOf(pte), path) then None
    else Some(Leaf(FrameOf(pte), Permissions(pte)))
  }

  function Decode(vm: Vm, va: nat): Option<Leaf> {
    if va < USER_VA_BASE || va >= VA_LIMIT || !RootOk(vm) then None
    else Descend(vm, vm.root, LEVELS - 1, {}, va)
  }

  // ----- the two agree -----

  /** The addresses below a table of this level: `prefix` up to 512 entries on. */
  predicate Within(va: nat, level: nat, prefix: nat)
    requires level < LEVELS
  {
    && prefix % (if level == 0 then 0x20_0000 else if level == 1 then 0x4000_0000 else 0x80_0000_0000) == 0
    && prefix <= va < EntryVa(prefix, ENTRIES, level)
  }

  lemma Index0(va: nat, prefix: nat)
    requires prefix % 0x20_0000 == 0 && prefix <= va < prefix + 0x20_0000
    ensures var k := va / 4096 % 512; prefix + k * 4096 <= va < prefix + (k + 1) * 4096
  {
    var q, k := prefix / 0x20_0000, (va - prefix) / 4096;
    assert va / 4096 == q * 512 + k;
    assert (q * 512 + k) % 512 == k;
  }

  lemma Index1(va: nat, prefix: nat)
    requires prefix % 0x4000_0000 == 0 && prefix <= va < prefix + 0x4000_0000
    ensures var k := va / 0x20_0000 % 512; prefix + k * 0x20_0000 <= va < prefix + (k + 1) * 0x20_0000
    ensures (prefix + va / 0x20_0000 % 512 * 0x20_0000) % 0x20_0000 == 0
  {
    var q, k := prefix / 0x4000_0000, (va - prefix) / 0x20_0000;
    assert va / 0x20_0000 == q * 512 + k;
    assert (q * 512 + k) % 512 == k;
  }

  lemma Index2(va: nat, prefix: nat)
    requires prefix % 0x80_0000_0000 == 0 && prefix <= va < prefix + 0x80_0000_0000
    ensures var k := va / 0x4000_0000 % 512; prefix + k * 0x4000_0000 <= va < prefix + (k + 1) * 0x4000_0000
    ensures (prefix + va / 0x4000_0000 % 512 * 0x4000_0000) % 0x4000_0000 == 0
  {
    var q, k := prefix / 0x80_0000_0000, (va - prefix) / 0x4000_0000;
    assert va / 0x4000_0000 == q * 512 + k;
    assert (q * 512 + k) % 512 == k;
  }

  /** An address lies in the span of the entry its page number selects. */
  lemma IndexOfAddress(va: nat, level: nat, prefix: nat)
    requires level < LEVELS && Within(va, level, prefix)
    ensures var k := Vpn(va, level); EntryVa(prefix, k, level) <= va < EntryVa(prefix, k + 1, level)
    ensures level > 0 ==> Within(va, level - 1, EntryVa(prefix, Vpn(va, level), level))
  {
    if level == 0 { Index0(va, prefix); } else if level == 1 { Index1(va, prefix); } else { Index2(va, prefix); }
  }

  /** Everything entry `index` lists lies in the span of that entry. */
  lemma {:induction false} EntryRange(vm: Vm, table: nat, level: nat, path: set<nat>, prefix: nat, index: nat)
    requires level < LEVELS
    ensures forall m :: m in Entry(vm, table, level, path, prefix, index).maps ==>
              EntryVa(prefix, index, level) <= m.va < EntryVa(prefix, index + 1, level)
    decreases level, 0
  {
    var pte := Pte(vm, table, index);
    if level > 0 && Present(pte) && Flags(pte) == 1 && ReferenceOk(vm, FrameOf(pte), path) {
      EntriesRange(vm, FrameOf(pte), level - 1, path + {FrameOf(pte)}, EntryVa(prefix, index, level), 0);
      EntriesAdjoin(EntryVa(prefix, index, level), 0, level - 1);
    }
    EntriesAdjoin(EntryVa(prefix, index, level), 0, level);
    EntriesAdjoin(prefix, index, level);
  }

  lemma {:induction false} EntriesRange(vm: Vm, table: nat, level: nat, path: set<nat>, prefix: nat, index: nat)
    requires level < LEVELS && index <= ENTRIES
    ensures forall m :: m in Entries(vm, table, level, path, prefix, index).maps ==>
              EntryVa(prefix, index, level) <= m.va < EntryVa(prefix, ENTRIES, level)
    decreases level, 1, ENTRIES - index
  {
    hide Entry;
    if index < ENTRIES {
      EntryRange(vm, table, level, path, prefix, index);
      EntriesRange(vm, table, level, path, prefix, index + 1);
    }
  }

  /** A mapping of a table's addresses is listed from entry `index` on exactly when the walk finds it. */
  lemma {:induction false} EntriesAgree(vm: Vm, table: nat, level: nat, above: set<nat>, prefix: nat, index: nat,
                                        m: Mapping)
    requires level < LEVELS && index <= ENTRIES && Within(m.va, level, prefix) && m.va % PAGE == 0
    ensures m in Entries(vm, table, level, above + {table}, prefix, index).maps <==>
            index <= Vpn(m.va, level) && m.va >= USER_VA_BASE
            && Descend(vm, table, level, above, m.va) == Some(Leaf(m.frame, m.permissions))
    decreases level, 1, ENTRIES - index
  {
    hide Entry, Descend;
    if index < ENTRIES {
      IndexOfAddress(m.va, level, prefix);
      EntryRange(vm, table, level, above + {table}, prefix, index);
      EntriesAgree(vm, table, level, above, prefix, index + 1, m);
      if index == Vpn(m.va, level) { EntryAgrees(vm, table, level, above, prefix, m); }
    }
  }

  lemma {:induction false} EntryAgrees(vm: Vm, table: nat, level: nat, above: set<nat>, prefix: nat, m: Mapping)
    requires level < LEVELS && Within(m.va, level, prefix) && m.va % PAGE == 0
    ensures m in Entry(vm, table, level, above + {table}, prefix, Vpn(m.va, level)).maps <==>
            m.va >= USER_VA_BASE && Descend(vm, table, level, above, m.va) == Some(Leaf(m.frame, m.permissions))
    decreases level, 0
  {
    hide Entries, Vpn, EntryVa, Within, ReferenceOk, PermissionsOk, Permissions, Flags, FrameOf;
    IndexOfAddress(m.va, level, prefix);
    var k := Vpn(m.va, level);
    var pte := Pte(vm, table, k);
    if level == 0 {
      LeafAddress(m.va, prefix);
    } else if Flags(pte) == 1 && ReferenceOk(vm, FrameOf(pte), above + {table}) {
      OneIsPresent(pte);
      EntriesAgree(vm, FrameOf(pte), level - 1, above + {table}, EntryVa(prefix, k, level), 0, m);
    } else {
      OneIsPresent(pte);
    }
  }

  lemma OneIsPresent(pte: Word)
    ensures Flags(pte) == 1 ==> Present(pte)
  {
  }

  /** A page-aligned address is the start of its leaf entry. */
  lemma LeafAddress(va: nat, prefix: nat)
    requires Within(va, 0, prefix) && va % PAGE == 0
    ensures va == EntryVa(prefix, Vpn(va, 0), 0)
  {
    IndexOfAddress(va, 0, prefix);
    var k := Vpn(va, 0);
    var q, r := prefix / 0x20_0000, va / 4096;
    assert prefix == 4096 * (512 * q) && va == 4096 * r;
    assert r == 512 * q + k;
  }

  /** The two traversals agree, for every memory image, allocator state and root: an address decodes to a leaf
      exactly when the visitor lists that leaf for the address's page. */
  lemma TraversalsAgree(vm: Vm, va: nat, leaf: Leaf)
    ensures Decode(vm, va) == Some(leaf) <==>
            Mapping(va - va % PAGE, leaf.frame, leaf.permissions) in VisitAll(vm).maps
  {
    hide Visit, Entries, Descend;
    var page := va - va % PAGE;
    SamePage(vm, va);
    var m := Mapping(page, leaf.frame, leaf.permissions);
    if RootOk(vm) {
      assert Visit(vm, vm.root, 2, {}, 0).maps == Entries(vm, vm.root, 2, {} + {vm.root}, 0, 0).maps by {
        VisitMaps(vm, vm.root, 2, {}, 0);
      }
      if va < VA_LIMIT {
        EntriesAgree(vm, vm.root, 2, {}, 0, 0, m);
      } else {
        EntriesRange(vm, vm.root, 2, {} + {vm.root}, 0, 0);
      }
    }
  }

  lemma VisitMaps(vm: Vm, table: nat, level: nat, above: set<nat>, prefix: nat)
    requires level < LEVELS
    ensures Visit(vm, table, level, above, prefix).maps == Entries(vm, table, level, above + {table}, prefix, 0).maps
  {
    hide Entries;
  }

  lemma Offset0(va: nat)
    ensures (va - va % 4096) / 4096 == va / 4096
  {
  }

  lemma Offset1(va: nat)
    ensures (va - va % 4096) / 0x20_0000 == va / 0x20_0000
  {
    var q := va / 4096;
    assert va - va % 4096 == 4096 * q;
    assert va / 0x20_0000 == q / 512 == 4096 * q / 0x20_0000;
  }

  lemma Offset2(va: nat)
    ensures (va - va % 4096) / 0x4000_0000 == va / 0x4000_0000
  {
    var q := va / 4096;
    assert va - va % 4096 == 4096 * q;
    assert va / 0x4000_0000 == q / 0x4_0000 == 4096 * q / 0x4000_0000;
  }

  lemma OffsetIsLost(va: nat, level: nat)
    requires level < LEVELS
    ensures Vpn(va, level) == Vpn(va - va % PAGE, level)
  {
    if level == 0 { Offset0(va); } else if level == 1 { Offset1(va); } else { Offset2(va); }
  }

  /** All addresses of a page decode alike. */
  lemma SamePage(vm: Vm, va: nat)
    ensures Decode(vm, va) == Decode(vm, va - va % PAGE)
  {
    var page := va - va % PAGE;
    forall l: nat | l < LEVELS ensures Vpn(va, l) == Vpn(page, l) { OffsetIsLost(va, l); }
    if RootOk(vm) { SameVpns(vm, vm.root, 2, {}, va, page); }
  }

  lemma {:induction false} SameVpns(vm: Vm, table: nat, level: nat, above: set<nat>, va: nat, vb: nat)
    requires level < LEVELS && forall l: nat :: l < LEVELS ==> Vpn(va, l) == Vpn(vb, l)
    ensures Descend(vm, table, level, above, va) == Descend(vm, table, level, above, vb)
    decreases level
  {
    hide Vpn;
    var pte := Pte(vm, table, Vpn(va, level));
    assert Vpn(va, level) == Vpn(vb, level);
    if level > 0 && Flags(pte) == 1 && ReferenceOk(vm, FrameOf(pte), above + {table}) {
      SameVpns(vm, FrameOf(pte), level - 1, above + {table}, va, vb);
    }
  }

  // ----- order -----

  predicate Ascending(ms: seq<Mapping>) {
    forall i, j :: 0 <= i < j < |ms| ==> ms[i].va < ms[j].va
  }

  lemma AscendingJoin(a: seq<Mapping>, b: seq<Mapping>, bound: nat)
    requires Ascending(a) && Ascending(b)
    requires (forall m :: m in a ==> m.va < bound) && (forall m :: m in b ==> bound <= m.va)
    ensures Ascending(a + b)
  {
  }

  lemma {:induction false} EntriesAscend(vm: Vm, table: nat, level: nat, path: set<nat>, prefix: nat, index: nat)
    requires level < LEVELS && index <= ENTRIES
    ensures Ascending(Entries(vm, table, level, path, prefix, index).maps)
    decreases level, 1, ENTRIES - index
  {
    hide Entry, Ascending;
    if index == ENTRIES {
      assert Ascending([]) by { AscendingEmpty(); }
    } else {
      EntryAscends(vm, table, level, path, prefix, index);
      EntriesAscend(vm, table, level, path, prefix, index + 1);
      EntryRange(vm, table, level, path, prefix, index);
      EntriesRange(vm, table, level, path, prefix, index + 1);
      AscendingJoin(Entry(vm, table, level, path, prefix, index).maps,
                    Entries(vm, table, level, path, prefix, index + 1).maps, EntryVa(prefix, index + 1, level));
    }
  }

  lemma AscendingEmpty()
    ensures Ascending([])
  {
  }

  lemma {:induction false} EntryAscends(vm: Vm, table: nat, level: nat, path: set<nat>, prefix: nat, index: nat)
    requires level < LEVELS
    ensures Ascending(Entry(vm, table, level, path, prefix, index).maps)
    decreases level, 0
  {
    hide Entries;
    var pte := Pte(vm, table, index);
    if level > 0 && Present(pte) && Flags(pte) == 1 && ReferenceOk(vm, FrameOf(pte), path) {
      EntriesAscend(vm, FrameOf(pte), level - 1, path + {FrameOf(pte)}, EntryVa(prefix, index, level), 0);
    }
  }

  /** Mappings are listed in strictly ascending order of address: no page twice. */
  lemma ListedAscending(vm: Vm)
    ensures Ascending(VisitAll(vm).maps)
  {
    hide Entries;
    if RootOk(vm) { EntriesAscend(vm, vm.root, 2, {} + {vm.root}, 0, 0); }
  }

  /** Listed addresses are page-aligned. */
  lemma {:induction false} EntriesAligned(vm: Vm, table: nat, level: nat, path: set<nat>, prefix: nat, index: nat)
    requires level < LEVELS && index <= ENTRIES && prefix % PAGE == 0
    ensures forall m :: m in Entries(vm, table, level, path, prefix, index).maps ==> m.va % PAGE == 0
    decreases level, 1, ENTRIES - index
  {
    hide Entry;
    if index < ENTRIES {
      EntryAligned(vm, table, level, path, prefix, index);
      EntriesAligned(vm, table, level, path, prefix, index + 1);
    }
  }

  lemma {:induction false} EntryAligned(vm: Vm, table: nat, level: nat, path: set<nat>, prefix: nat, index: nat)
    requires level < LEVELS && prefix % PAGE == 0
    ensures forall m :: m in Entry(vm, table, level, path, prefix, index).maps ==> m.va % PAGE == 0
    decreases level, 0
  {
    hide Entries;
    AlignedEntry(prefix, index, level);
    var pte := Pte(vm, table, index);
    if level > 0 && Present(pte) && Flags(pte) == 1 && ReferenceOk(vm, FrameOf(pte), path) {
      EntriesAligned(vm, FrameOf(pte), level - 1, path + {FrameOf(pte)}, EntryVa(prefix, index, level), 0);
    }
  }

  lemma AlignedEntry(prefix: nat, index: nat, level: nat)
    requires level < LEVELS && prefix % PAGE == 0
    ensures EntryVa(prefix, index, level) % PAGE == 0
  {
    var q := prefix / 4096;
    assert prefix == 4096 * q;
    if level == 0 {
      Multiple(q + index);
    } else if level == 1 {
      assert EntryVa(prefix, index, level) == 4096 * (q + 512 * index);
      Multiple(q + 512 * index);
    } else {
      assert EntryVa(prefix, index, level) == 4096 * (q + 0x4_0000 * index);
      Multiple(q + 0x4_0000 * index);
    }
  }

  lemma Multiple(q: nat)
    ensures 4096 * q % 4096 == 0
  {
  }

  lemma ListedAligned(vm: Vm, m: Mapping)
    requires m in VisitAll(vm).maps
    ensures m.va % PAGE == 0
  {
    hide Entries;
    if RootOk(vm) { EntriesAligned(vm, vm.root, 2, {} + {vm.root}, 0, 0); }
  }

  // ----- the translation buffer -----

  const TLB_ENTRIES: nat := 8

  datatype TlbEntry = TlbEntry(valid: bool, vpn: Bits, frame: nat, permissions: nat)

  /** An entry breaks coherence: it sits in the wrong place or caches no leaf of the page table. */
  predicate Incoherent(vm: Vm, e: TlbEntry, i: nat) {
    e.valid &&
    var va := e.vpn * PAGE % TWO_64;
    e.vpn >= VA_LIMIT / PAGE || va / PAGE % TLB_ENTRIES != i || Decode(vm, va) != Some(Leaf(e.frame, e.permissions))
  }

  lemma TlbAddress(vpn: nat)
    requires vpn < VA_LIMIT / PAGE
    ensures vpn * PAGE % TWO_64 == vpn * PAGE && vpn * PAGE / PAGE == vpn && vpn * PAGE % PAGE == 0
  {
    assert vpn < 0x800_0000;
    assert vpn * 4096 < 0x80_0000_0000;
  }

  /** Coherent entries are those in their own place that equal a listed mapping. */
  lemma CoherentIffListed(vm: Vm, e: TlbEntry, i: nat)
    ensures !Incoherent(vm, e, i) <==>
            (e.valid ==> e.vpn % 8 == i && Mapping(e.vpn * 4096, e.frame, e.permissions) in VisitAll(vm).maps)
  {
    hide VisitAll, Decode;
    if e.vpn < VA_LIMIT / PAGE {
      TlbAddress(e.vpn);
      TraversalsAgree(vm, e.vpn * PAGE, Leaf(e.frame, e.permissions));
    } else {
      ListedInRange(vm);
    }
  }

  lemma ListedInRange(vm: Vm)
    ensures forall m :: m in VisitAll(vm).maps ==> m.va < VA_LIMIT
  {
    hide Entries;
    if RootOk(vm) { EntriesRange(vm, vm.root, 2, {} + {vm.root}, 0, 0); }
  }
}
