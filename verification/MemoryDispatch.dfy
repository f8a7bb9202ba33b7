/** Physical memory dispatch (exec.c): sections, sub-page tables, mem_add, commit
    and lookup, on top of the physical page map. */
module MemoryDispatch {
  import opened Radix
  import opened PhysPageMap
  import opened PhysPageCompact

  const TARGET_PAGE_SIZE: nat := 4096
  const ADDRESS_SPACE: nat := 0x1_0000_0000_0000_0000
  const PAGES: nat := 0x10_0000_0000_0000

  /** The region a section belongs to: the four built-in ones, the region of the
      sub-page that starts at `base`, or one the machine registered. */
  datatype Region =
    | IoMemUnassigned | IoMemNotdirty | IoMemRom | IoMemWatch
    | Subpage(base: nat)
    | Registered(id: nat)

  datatype Section = Section(mr: Region, offAs: nat, offRegion: nat, size: nat)

  function DummySection(mr: Region): Section {
    Section(mr, 0, 0, ADDRESS_SPACE)
  }

  /** The high half of the size is set, or the byte lies in the range, in 64-bit arithmetic. */
  predicate Covers(s: Section, addr: nat) {
    || s.size / ADDRESS_SPACE != 0
    || s.offAs <= addr <= (s.offAs + s.size % ADDRESS_SPACE - 1) % ADDRESS_SPACE
  }

  /** A byte of the section, in plain terms. */
  predicate Contains(s: Section, addr: nat) {
    s.offAs <= addr < s.offAs + s.size
  }

  /** The memory core hands out non-empty sections inside the address space. */
  predicate ValidSection(s: Section) {
    s.mr.Registered? && s.size > 0 && s.offAs + s.size <= ADDRESS_SPACE
  }

  /** What a dispatch consists of. */
  datatype View = View(root: Entry, nodes: seq<Node>, sections: seq<Section>, subpages: map<nat, seq<nat>>)

  function PageOf(addr: nat): nat {
    addr / TARGET_PAGE_SIZE
  }

  /** The section number that the tree holds for page `q`. */
  function SectionOf(v: View, q: nat): nat {
    Walk(v.nodes, v.root, P_L2_LEVELS, q)
  }

  /** phys_page_find, as a function. */
  function Find(v: View, addr: nat): Section
    requires |v.sections| > 0
  {
    var s := SectionOf(v, PageOf(addr));
    if s < |v.sections| && Covers(v.sections[s], addr) then v.sections[s] else v.sections[PHYS_SECTION_UNASSIGNED]
  }

  /** address_space_lookup_region with resolve_subpage set. */
  function Lookup(v: View, addr: nat): Section
    requires |v.sections| > 0
  {
    var s := Find(v, addr);
    if s.mr.Subpage? && s.mr.base in v.subpages then
      var table := v.subpages[s.mr.base];
      var off := addr % TARGET_PAGE_SIZE;
      if off < |table| && table[off] < |v.sections| then v.sections[table[off]] else s
    else s
  }

  predicate PageSection(s: Section) {
    s.offAs % TARGET_PAGE_SIZE == 0 && s.size % TARGET_PAGE_SIZE == 0 && s.size > 0 && s.offAs + s.size <= ADDRESS_SPACE
  }

  predicate InPages(s: Section, q: nat) {
    s.offAs / TARGET_PAGE_SIZE <= q < (s.offAs + s.size) / TARGET_PAGE_SIZE
  }

  /** A sub-page table: 4096 numbers of registered sections, or of the unassigned one. */
  ghost predicate TableOk(v: View, table: seq<nat>) {
    && |table| == TARGET_PAGE_SIZE
    && (forall k :: 0 <= k < TARGET_PAGE_SIZE ==> table[k] < |v.sections|)
    && (forall k :: 0 <= k < TARGET_PAGE_SIZE ==>
          table[k] == PHYS_SECTION_UNASSIGNED || v.sections[table[k]].mr.Registered?)
  }

  predicate TableUsed(table: seq<nat>) {
    exists k :: 0 <= k < |table| && table[k] != PHYS_SECTION_UNASSIGNED
  }

  /** The section a page is mapped to covers exactly the pages mapped to it. */
  ghost predicate LeafExact(v: View, s: nat) {
    && s < |v.sections|
    && PageSection(v.sections[s])
    && forall q :: 0 <= q < Span(P_L2_LEVELS) ==> (SectionOf(v, q) == s <==> InPages(v.sections[s], q))
  }

  ghost predicate LeafRegion(v: View, q: nat, s: nat)
    requires s < |v.sections|
  {
    match v.sections[s].mr
    case Registered(_) => true
    case Subpage(base) =>
      && base == q * TARGET_PAGE_SIZE && v.sections[s] == SubpageSection(base)
      && base in v.subpages && TableOk(v, v.subpages[base])
    case _ => false
  }

  ghost predicate LeavesOk(v: View) {
    forall q :: 0 <= q < Span(P_L2_LEVELS) && SectionOf(v, q) != PHYS_SECTION_UNASSIGNED ==>
      LeafExact(v, SectionOf(v, q)) && LeafRegion(v, q, SectionOf(v, q))
  }

  ghost predicate SectionsOk(v: View) {
    && 4 <= |v.sections| <= TARGET_PAGE_SIZE
    && v.sections[PHYS_SECTION_UNASSIGNED] == DummySection(IoMemUnassigned)
  }

  /** Every sub-page has at least one byte registered. */
  ghost predicate TablesUsed(v: View) {
    forall q :: 0 <= q < Span(P_L2_LEVELS) && SectionOf(v, q) < |v.sections|
                && v.sections[SectionOf(v, q)] == SubpageSection(q * TARGET_PAGE_SIZE)
                && q * TARGET_PAGE_SIZE in v.subpages ==>
      TableUsed(v.subpages[q * TARGET_PAGE_SIZE])
  }

  /** The section register_subpage makes for a sub-page. */
  function SubpageSection(base: nat): Section {
    Section(Subpage(base), base, 0, TARGET_PAGE_SIZE)
  }

  /** What holds of the next dispatch between mem_begin and mem_commit. */
  ghost predicate Inv(v: View, homes: seq<Home>) {
    Shape(v, homes) && TablesUsed(v)
  }

  /** The same, while a sub-page may still be empty. */
  ghost predicate Shape(v: View, homes: seq<Home>) {
    TreeOk(v, homes) && LeavesOk(v)
  }

  /** The tree and the section array are well formed, and no node has been skipped. */
  ghost predicate TreeOk(v: View, homes: seq<Home>) {
    && PlainOk(v.nodes, homes)
    && EntryOk(homes, v.root, P_L2_LEVELS, 0) && v.root.skip == 1
    && |v.nodes| <= 11 * |v.sections|
    && SectionsOk(v)
  }

  lemma TopSpan()
    ensures Span(P_L2_LEVELS) == 4 * PAGES
  {
  }

  /** No page of [a, b) below the slot has a section. */
  ghost predicate Unmapped(nodes: seq<Node>, e: Entry, l: nat, lo: nat, a: nat, b: nat) {
    forall q :: a <= q < b && lo <= q < lo + Span(l) ==> Walk(nodes, e, l, q) == PHYS_SECTION_UNASSIGNED
  }

  /** Pages without a section can be set without splitting a leaf. */
  lemma {:induction false} UnmappedSettable(nodes: seq<Node>, homes: seq<Home>, e: Entry, l: nat, lo: nat, a: nat,
                                            b: nat)
    requires PlainOk(nodes, homes) && EntryOk(homes, e, l, lo) && e.skip <= 1 && lo % Span(l) == 0
    requires a < b && Unmapped(nodes, e, l, lo, a, b)
    ensures Settable(nodes, e, l, lo, a, b)
    decreases l
  {
    if !(b <= lo || lo + Span(l) <= a || (a <= lo && lo + Span(l) <= b)) {
      NotALeaf(nodes, homes, e, l, lo, a, b);
      if e.ptr != PHYS_MAP_NODE_NIL {
        forall j | 0 <= j < P_L2_SIZE ensures Settable(nodes, nodes[e.ptr][j], l - 1, SlotLo(lo, l - 1, j), a, b) {
          UnmappedSlot(nodes, homes, e, l, lo, a, b, j);
          UnmappedSettable(nodes, homes, nodes[e.ptr][j], l - 1, SlotLo(lo, l - 1, j), a, b);
        }
      }
    }
  }

  /** The whole tree is settable for the pages [a, b). */
  ghost predicate RootSettable(nodes: seq<Node>, root: Entry, a: nat, b: nat) {
    root.ptr == PHYS_MAP_NODE_NIL ||
    (root.ptr < |nodes| && SlotsSettable(nodes, root.ptr, P_L2_LEVELS - 1, 0, a, b, 0))
  }

  lemma UnmappedRoot(nodes: seq<Node>, homes: seq<Home>, root: Entry, a: nat, b: nat)
    requires PlainOk(nodes, homes) && EntryOk(homes, root, P_L2_LEVELS, 0) && root.skip == 1
    requires a < b && Unmapped(nodes, root, P_L2_LEVELS, 0, a, b)
    ensures RootSettable(nodes, root, a, b)
  {
    if root.ptr != PHYS_MAP_NODE_NIL {
      var l := P_L2_LEVELS - 1;
      forall j | 0 <= j < P_L2_SIZE ensures Settable(nodes, nodes[root.ptr][j], l, SlotLo(0, l, j), a, b) {
        UnmappedSlot(nodes, homes, root, P_L2_LEVELS, 0, a, b, j);
        UnmappedSettable(nodes, homes, nodes[root.ptr][j], l, SlotLo(0, l, j), a, b);
      }
    }
  }

  lemma NotALeaf(nodes: seq<Node>, homes: seq<Home>, e: Entry, l: nat, lo: nat, a: nat, b: nat)
    requires EntryOk(homes, e, l, lo) && e.skip <= 1
    requires a < b && Unmapped(nodes, e, l, lo, a, b)
    requires !(b <= lo || lo + Span(l) <= a || (a <= lo && lo + Span(l) <= b))
    ensures l > 0 && e.skip == 1
  {
    var q := if a <= lo then lo else a;
    assert Walk(nodes, e, l, q) == PHYS_SECTION_UNASSIGNED;
  }

  lemma UnmappedSlot(nodes: seq<Node>, homes: seq<Home>, e: Entry, l: nat, lo: nat, a: nat, b: nat, j: nat)
    requires PlainOk(nodes, homes) && EntryOk(homes, e, l, lo)
    requires l > 0 && e.skip == 1 && e.ptr != PHYS_MAP_NODE_NIL && lo % Span(l) == 0 && j < P_L2_SIZE
    requires a < b && Unmapped(nodes, e, l, lo, a, b)
    ensures Unmapped(nodes, nodes[e.ptr][j], l - 1, SlotLo(lo, l - 1, j), a, b)
    ensures EntryOk(homes, nodes[e.ptr][j], l - 1, SlotLo(lo, l - 1, j)) && nodes[e.ptr][j].skip <= 1
    ensures SlotLo(lo, l - 1, j) % Span(l - 1) == 0
  {
    assert NodeOk(homes, nodes[e.ptr], homes[e.ptr]);
    assert homes[e.ptr].base == lo;
    var k, c := l - 1, nodes[e.ptr][j];
    SlotInNode(lo, k, j);
    SlotAligned(lo, k, j);
    forall q | a <= q < b && SlotLo(lo, k, j) <= q < SlotLo(lo, k, j) + Span(k)
      ensures Walk(nodes, c, k, q) == PHYS_SECTION_UNASSIGNED
    {
      DigitInSlot(q, k, lo, j);
      assert Walk(nodes, e, l, q) == PHYS_SECTION_UNASSIGNED;
    }
  }

  /** For page-aligned sections, pages and bytes agree. */
  lemma PageBytes(s: Section, addr: nat)
    requires PageSection(s) && addr < ADDRESS_SPACE
    ensures InPages(s, PageOf(addr)) <==> Contains(s, addr)
    ensures Covers(s, addr) <==> Contains(s, addr)
  {
  }

  /** What phys_page_find returns, page by page. */
  lemma FindCases(v: View, homes: seq<Home>, addr: nat)
    requires Shape(v, homes) && addr < ADDRESS_SPACE
    ensures PageOf(addr) < PAGES < Span(P_L2_LEVELS)
    ensures var s := SectionOf(v, PageOf(addr));
            s < |v.sections| && Find(v, addr) == v.sections[s]
  {
    TopSpan();
    var q := PageOf(addr);
    var s := SectionOf(v, q);
    if s == PHYS_SECTION_UNASSIGNED {
      assert Covers(v.sections[0], addr);
    } else {
      assert LeafExact(v, s);
      PageBytes(v.sections[s], addr);
    }
  }

  /** What the resolving lookup returns, page by page. */
  lemma LookupCases(v: View, homes: seq<Home>, addr: nat)
    requires Shape(v, homes) && addr < ADDRESS_SPACE
    ensures PageOf(addr) < PAGES < Span(P_L2_LEVELS)
    ensures var s := SectionOf(v, PageOf(addr));
            && s < |v.sections|
            && (s == PHYS_SECTION_UNASSIGNED ==> Lookup(v, addr) == v.sections[0])
            && (s != PHYS_SECTION_UNASSIGNED && v.sections[s].mr.Registered? ==> Lookup(v, addr) == v.sections[s])
            && (s != PHYS_SECTION_UNASSIGNED && !v.sections[s].mr.Registered? ==>
                  && v.sections[s] == SubpageSection(PageOf(addr) * TARGET_PAGE_SIZE)
                  && PageOf(addr) * TARGET_PAGE_SIZE in v.subpages
                  && var table := v.subpages[PageOf(addr) * TARGET_PAGE_SIZE];
                  && TableOk(v, table)
                  && Lookup(v, addr) == v.sections[table[addr % TARGET_PAGE_SIZE]])
  {
    FindCases(v, homes, addr);
    var q := PageOf(addr);
    var s := SectionOf(v, q);
    if s != PHYS_SECTION_UNASSIGNED {
      assert LeafRegion(v, q, s);
    }
  }

  /** The effect of storing `sec` as a new section for the pages [a, b) and for no others. */
  ghost predicate PagesAdded(v: View, v1: View, sec: Section, a: nat, b: nat) {
    && v1.sections == v.sections + [sec]
    && v1.subpages == v.subpages
    && forall q :: 0 <= q < Span(P_L2_LEVELS) ==>
         SectionOf(v1, q) == if a <= q < b then |v.sections| else SectionOf(v, q)
  }

  ghost predicate IsSubpage(v: View, q: nat) {
    && SectionOf(v, q) != PHYS_SECTION_UNASSIGNED
    && SectionOf(v, q) < |v.sections| && v.sections[SectionOf(v, q)] == SubpageSection(q * TARGET_PAGE_SIZE)
  }

  /** Registering a section: its bytes go to it, all other bytes go where they went. */
  ghost predicate Added(v: View, v1: View, sec: Section)
    requires |v.sections| > 0 && |v1.sections| > 0
  {
    forall addr :: 0 <= addr < ADDRESS_SPACE ==>
      Lookup(v1, addr) == if Contains(sec, addr) then sec else Lookup(v, addr)
  }

  ghost predicate Free(v: View, sec: Section)
    requires |v.sections| > 0
  {
    forall addr :: 0 <= addr < ADDRESS_SPACE && Contains(sec, addr) ==> Lookup(v, addr) == v.sections[0]
  }

  /** A sub-page has a byte that is not free. */
  lemma UsedByte(v: View, homes: seq<Home>, q: nat) returns (addr: nat)
    requires Inv(v, homes) && q < PAGES && IsSubpage(v, q)
    ensures addr < ADDRESS_SPACE && PageOf(addr) == q && Lookup(v, addr).mr.Registered?
  {
    var k := UsedEntry(v, homes, q);
    addr := q * TARGET_PAGE_SIZE + k;
    assert PageOf(addr) == q && addr % TARGET_PAGE_SIZE == k;
    LookupCases(v, homes, addr);
  }

  lemma UsedEntry(v: View, homes: seq<Home>, q: nat) returns (k: nat)
    requires Inv(v, homes) && q < PAGES && IsSubpage(v, q)
    ensures k < TARGET_PAGE_SIZE && q * TARGET_PAGE_SIZE in v.subpages
    ensures TableOk(v, v.subpages[q * TARGET_PAGE_SIZE])
    ensures v.subpages[q * TARGET_PAGE_SIZE][k] != PHYS_SECTION_UNASSIGNED
  {
    TopSpan();
    assert LeafRegion(v, q, SectionOf(v, q));
    var table := v.subpages[q * TARGET_PAGE_SIZE];
    assert TableUsed(table);
    k :| 0 <= k < |table| && table[k] != PHYS_SECTION_UNASSIGNED;
  }

  /** A page all of whose bytes are free has no section. */
  lemma FreePage(v: View, homes: seq<Home>, sec: Section, q: nat)
    requires Inv(v, homes) && PageSection(sec) && InPages(sec, q) && Free(v, sec)
    ensures SectionOf(v, q) == PHYS_SECTION_UNASSIGNED
  {
    var addr := q * TARGET_PAGE_SIZE;
    assert PageOf(addr) == q && addr < ADDRESS_SPACE;
    if IsSubpage(v, q) {
      addr := UsedByte(v, homes, q);
    }
    PageBytes(sec, addr);
    assert Lookup(v, addr) == v.sections[0];
    LookupCases(v, homes, addr);
  }

  lemma FreePages(v: View, homes: seq<Home>, sec: Section, a: nat, b: nat)
    requires Inv(v, homes) && PageSection(sec) && Free(v, sec)
    requires a == sec.offAs / TARGET_PAGE_SIZE && b == (sec.offAs + sec.size) / TARGET_PAGE_SIZE
    ensures a < b <= PAGES && Unmapped(v.nodes, v.root, P_L2_LEVELS, 0, a, b)
  {
    forall q | a <= q < b && 0 <= q < 0 + Span(P_L2_LEVELS)
      ensures Walk(v.nodes, v.root, P_L2_LEVELS, q) == PHYS_SECTION_UNASSIGNED
    {
      FreePage(v, homes, sec, q);
    }
  }

  /** A leaf other than the new one keeps its exact range. */
  lemma LeafKept(v: View, v1: View, sec: Section, a: nat, b: nat, q: nat)
    requires LeavesOk(v) && PagesAdded(v, v1, sec, a, b)
    requires Unmapped(v.nodes, v.root, P_L2_LEVELS, 0, a, b)
    requires q < Span(P_L2_LEVELS) && !(a <= q < b) && SectionOf(v, q) != PHYS_SECTION_UNASSIGNED
    ensures LeafExact(v1, SectionOf(v1, q)) && LeafRegion(v1, q, SectionOf(v1, q))
  {
  }

  lemma TableKept(v: View, v1: View, sec: Section, table: seq<nat>)
    requires v1.sections == v.sections + [sec] && TableOk(v, table)
    ensures TableOk(v1, table)
  {
  }

  lemma LeavesAfterAdd(v: View, v1: View, homes: seq<Home>, sec: Section, a: nat, b: nat)
    requires Shape(v, homes) && PagesAdded(v, v1, sec, a, b)
    requires Unmapped(v.nodes, v.root, P_L2_LEVELS, 0, a, b)
    requires PageSection(sec)
    requires a == sec.offAs / TARGET_PAGE_SIZE && b == (sec.offAs + sec.size) / TARGET_PAGE_SIZE
    requires forall q :: a <= q < b ==> LeafRegion(v1, q, |v.sections|)
    ensures LeavesOk(v1)
  {
    forall q | 0 <= q < Span(P_L2_LEVELS) && SectionOf(v1, q) != PHYS_SECTION_UNASSIGNED
      ensures LeafExact(v1, SectionOf(v1, q)) && LeafRegion(v1, q, SectionOf(v1, q))
    {
      if a <= q < b {
        NewLeafExact(v, v1, homes, sec, a, b);
      } else {
        LeafKept(v, v1, sec, a, b, q);
      }
    }
  }

  lemma NewLeafExact(v: View, v1: View, homes: seq<Home>, sec: Section, a: nat, b: nat)
    requires Shape(v, homes) && PagesAdded(v, v1, sec, a, b)
    requires PageSection(sec)
    requires a == sec.offAs / TARGET_PAGE_SIZE && b == (sec.offAs + sec.size) / TARGET_PAGE_SIZE
    ensures LeafExact(v1, |v.sections|)
  {
  }

  /** register_multipage: the new section answers for its own bytes only. */
  lemma MultipageLookup(v: View, v1: View, homes: seq<Home>, homes1: seq<Home>, sec: Section, a: nat, b: nat)
    requires Shape(v, homes) && Shape(v1, homes1) && PagesAdded(v, v1, sec, a, b)
    requires PageSection(sec) && sec.mr.Registered?
    requires a == sec.offAs / TARGET_PAGE_SIZE && b == (sec.offAs + sec.size) / TARGET_PAGE_SIZE
    ensures Added(v, v1, sec)
  {
    forall addr | 0 <= addr < ADDRESS_SPACE
      ensures Lookup(v1, addr) == if Contains(sec, addr) then sec else Lookup(v, addr)
    {
      LookupCases(v, homes, addr);
      LookupCases(v1, homes1, addr);
      PageBytes(sec, addr);
    }
  }

  lemma MultipageDone(v: View, v1: View, homes: seq<Home>, homes1: seq<Home>, sec: Section, a: nat, b: nat)
    requires Inv(v, homes) && TreeOk(v1, homes1) && PagesAdded(v, v1, sec, a, b)
    requires Unmapped(v.nodes, v.root, P_L2_LEVELS, 0, a, b)
    requires PageSection(sec) && sec.mr.Registered?
    requires a == sec.offAs / TARGET_PAGE_SIZE && b == (sec.offAs + sec.size) / TARGET_PAGE_SIZE
    ensures Inv(v1, homes1) && Added(v, v1, sec)
  {
    LeavesAfterAdd(v, v1, homes, sec, a, b);
    UsedAfterAdd(v, v1, homes, sec, a, b);
    MultipageLookup(v, v1, homes, homes1, sec, a, b);
  }

  /** Giving an unmapped page's sub-page a table disturbs nothing. */
  lemma TableInstalled(v: View, homes: seq<Home>, q: nat, table: seq<nat>)
    requires Shape(v, homes) && q < PAGES && SectionOf(v, q) == PHYS_SECTION_UNASSIGNED
    ensures Shape(v.(subpages := v.subpages[q * TARGET_PAGE_SIZE := table]), homes)
    ensures TablesUsed(v) ==> TablesUsed(v.(subpages := v.subpages[q * TARGET_PAGE_SIZE := table]))
  {
    var v1 := v.(subpages := v.subpages[q * TARGET_PAGE_SIZE := table]);
    TopSpan();
    forall p | 0 <= p < Span(P_L2_LEVELS) ensures SectionOf(v1, p) == SectionOf(v, p) {
    }
    forall p | 0 <= p < Span(P_L2_LEVELS) && SectionOf(v1, p) != PHYS_SECTION_UNASSIGNED
      ensures LeafExact(v1, SectionOf(v1, p)) && LeafRegion(v1, p, SectionOf(v1, p))
    {
      var s := SectionOf(v, p);
      assert LeafExact(v, s) && LeafRegion(v, p, s);
      assert p != q;
    }
  }

  /** An empty sub-page answers like no sub-page. */
  lemma EmptySubpage(v: View, v1: View, homes: seq<Home>, homes1: seq<Home>, q: nat)
    requires Shape(v, homes) && Shape(v1, homes1) && q < PAGES
    requires SectionOf(v, q) == PHYS_SECTION_UNASSIGNED
    requires v1.sections == v.sections + [SubpageSection(q * TARGET_PAGE_SIZE)]
    requires v1.subpages == v.subpages[q * TARGET_PAGE_SIZE := seq(TARGET_PAGE_SIZE, _ => PHYS_SECTION_UNASSIGNED)]
    requires forall p :: 0 <= p < Span(P_L2_LEVELS) ==>
               SectionOf(v1, p) == if q <= p < q + 1 then |v.sections| else SectionOf(v, p)
    ensures forall addr :: 0 <= addr < ADDRESS_SPACE ==> Lookup(v1, addr) == Lookup(v, addr)
  {
    forall addr | 0 <= addr < ADDRESS_SPACE ensures Lookup(v1, addr) == Lookup(v, addr) {
      LookupCases(v, homes, addr);
      LookupCases(v1, homes1, addr);
    }
  }

  /** Entering section `sec` into the table of the sub-page at page `q`. */
  ghost predicate TableAdded(v: View, v1: View, sec: Section, q: nat, start: nat, end: nat)
    requires q * TARGET_PAGE_SIZE in v.subpages
  {
    var base := q * TARGET_PAGE_SIZE;
    && v1 == v.(sections := v.sections + [sec], subpages := v1.subpages)
    && base in v1.subpages && v1.subpages == v.subpages[base := v1.subpages[base]]
    && |v1.subpages[base]| == |v.subpages[base]|
    && forall k :: 0 <= k < |v.subpages[base]| ==>
         v1.subpages[base][k] == if start <= k <= end then |v.sections| else v.subpages[base][k]
  }

  lemma TableAddedShape(v: View, v1: View, homes: seq<Home>, sec: Section, q: nat, start: nat, end: nat)
    requires Shape(v, homes) && q < PAGES && IsSubpage(v, q) && q * TARGET_PAGE_SIZE in v.subpages
    requires TableAdded(v, v1, sec, q, start, end)
    requires sec.mr.Registered? && |v.sections| < TARGET_PAGE_SIZE
    ensures Shape(v1, homes)
  {
    TopSpan();
    forall p | 0 <= p < Span(P_L2_LEVELS) ensures SectionOf(v1, p) == SectionOf(v, p) {
    }
    forall p | 0 <= p < Span(P_L2_LEVELS) && SectionOf(v1, p) != PHYS_SECTION_UNASSIGNED
      ensures LeafExact(v1, SectionOf(v1, p)) && LeafRegion(v1, p, SectionOf(v1, p))
    {
      var s := SectionOf(v, p);
      assert LeafExact(v, s) && LeafRegion(v, p, s);
      if v.sections[s].mr.Subpage? {
        TableKept(v, v1, sec, v.subpages[v.sections[s].mr.base]);
        assert p == q ==> TableOk(v1, v1.subpages[q * TARGET_PAGE_SIZE]);
      }
    }
  }

  lemma TableAddedUsed(v: View, v1: View, homes: seq<Home>, sec: Section, q: nat, start: nat, end: nat)
    requires Shape(v, homes) && Shape(v1, homes) && q < PAGES && IsSubpage(v, q) && q * TARGET_PAGE_SIZE in v.subpages
    requires TableAdded(v, v1, sec, q, start, end) && start <= end < TARGET_PAGE_SIZE
    requires forall p ::
               0 <= p < Span(P_L2_LEVELS) && p != q && IsSubpage(v, p) && p * TARGET_PAGE_SIZE in v.subpages ==>
               TableUsed(v.subpages[p * TARGET_PAGE_SIZE])
    ensures TablesUsed(v1)
  {
    TopSpan();
    assert LeafRegion(v, q, SectionOf(v, q));
    assert v1.subpages[q * TARGET_PAGE_SIZE][start] == |v.sections|;
    forall p | 0 <= p < Span(P_L2_LEVELS) && SectionOf(v1, p) < |v1.sections|
               && v1.sections[SectionOf(v1, p)] == SubpageSection(p * TARGET_PAGE_SIZE)
               && p * TARGET_PAGE_SIZE in v1.subpages
      ensures TableUsed(v1.subpages[p * TARGET_PAGE_SIZE])
    {
      assert SectionOf(v1, p) == SectionOf(v, p);
      if SectionOf(v, p) != PHYS_SECTION_UNASSIGNED {
        assert LeafExact(v, SectionOf(v, p));
      }
    }
  }

  lemma TableAddedLookup(v: View, v1: View, homes: seq<Home>, sec: Section, q: nat, start: nat, end: nat)
    requires Shape(v, homes) && Shape(v1, homes) && q < PAGES && IsSubpage(v, q) && q * TARGET_PAGE_SIZE in v.subpages
    requires TableAdded(v, v1, sec, q, start, end) && start <= end < TARGET_PAGE_SIZE
    requires sec.offAs == q * TARGET_PAGE_SIZE + start && sec.size == end - start + 1
    ensures Added(v, v1, sec)
  {
    forall addr | 0 <= addr < ADDRESS_SPACE
      ensures Lookup(v1, addr) == if Contains(sec, addr) then sec else Lookup(v, addr)
    {
      LookupCases(v, homes, addr);
      LookupCases(v1, homes, addr);
      assert SectionOf(v1, PageOf(addr)) == SectionOf(v, PageOf(addr));
      assert addr == PageOf(addr) * TARGET_PAGE_SIZE + addr % TARGET_PAGE_SIZE;
    }
  }

  /** subpage_register: -1 and no change when an end is outside the page. */
  method SubpageRegister(table: seq<nat>, start: nat, end: nat, section: nat) returns (table': seq<nat>, ret: int)
    requires |table| == TARGET_PAGE_SIZE
    ensures |table'| == TARGET_PAGE_SIZE
    ensures ret == if start >= TARGET_PAGE_SIZE || end >= TARGET_PAGE_SIZE then -1 else 0
    ensures ret < 0 ==> table' == table
    ensures ret == 0 ==> forall k :: 0 <= k < TARGET_PAGE_SIZE ==>
              table'[k] == if start <= k <= end then section else table[k]
  {
    table' := table;
    if start >= TARGET_PAGE_SIZE || end >= TARGET_PAGE_SIZE {
      return table, -1;
    }
    var idx := start;
    while idx <= end
      invariant |table'| == TARGET_PAGE_SIZE
      invariant start <= idx && (start <= end ==> idx <= end + 1)
      invariant forall k :: 0 <= k < TARGET_PAGE_SIZE ==>
                  table'[k] == if start <= k < idx && k <= end then section else table[k]
    {
      table' := table'[idx := section];
      idx := idx + 1;
    }
    ret := 0;
  }

  /** phys_page_find */
  method PhysPageFind(lp0: Entry, addr: nat, nodes: seq<Node>, sections: seq<Section>, ghost homes: seq<Home>)
    returns (s: Section)
    requires NodesOk(nodes, homes) && EntryOk(homes, lp0, P_L2_LEVELS, 0) && |sections| > 0
    requires Walk(nodes, lp0, P_L2_LEVELS, PageOf(addr)) < |sections|
    requires Covers(sections[PHYS_SECTION_UNASSIGNED], addr)
    ensures forall subpages :: s == Find(View(lp0, nodes, sections, subpages), addr)
  {
    var index := PageOf(addr);
    var lp, i := lp0, P_L2_LEVELS;
    ghost var lo := 0;
    while lp.skip != 0 && i - lp.skip >= 0
      invariant i >= 0 && EntryOk(homes, lp, i, lo)
      invariant Walk(nodes, lp, i, index) == Walk(nodes, lp0, P_L2_LEVELS, index)
      decreases i
    {
      i := i - lp.skip;
      if lp.ptr == PHYS_MAP_NODE_NIL {
        return sections[PHYS_SECTION_UNASSIGNED];
      }
      assert NodeOk(homes, nodes[lp.ptr], homes[lp.ptr]);
      lo := SlotLo(homes[lp.ptr].base, i, Digit(index, i));
      lp := nodes[lp.ptr][Digit(index, i)];
    }
    if Covers(sections[lp.ptr], addr) {
      s := sections[lp.ptr];
    } else {
      s := sections[PHYS_SECTION_UNASSIGNED];
    }
  }

  /** AddressSpaceDispatch with its PhysPageMap. */
  class Dispatch {
    var physMap: Entry
    var nodes: seq<Node>
    var nodesNbAlloc: nat
    var sections: seq<Section>
    var subpages: map<nat, seq<nat>>
    ghost var homes: seq<Home>

    ghost function V(): View
      reads this
    {
      View(physMap, nodes, sections, subpages)
    }

    /** mem_begin */
    constructor ()
      ensures Inv(V(), homes)
      ensures |sections| == 4
      ensures forall addr :: 0 <= addr < ADDRESS_SPACE ==> Lookup(V(), addr) == DummySection(IoMemUnassigned)
    {
      physMap := Entry(1, PHYS_MAP_NODE_NIL);
      nodes, nodesNbAlloc, subpages, homes := [], 0, map[], [];
      sections := [DummySection(IoMemUnassigned), DummySection(IoMemNotdirty),
                   DummySection(IoMemRom), DummySection(IoMemWatch)];
      new;
      TopSpan();
    }

    /** phys_section_add; `ok` is false when its assertion stops the program. */
    method SectionAdd(sec: Section) returns (ok: bool, n: nat)
      requires |sections| > 0
      modifies this`sections
      ensures ok <==> old(|sections|) < TARGET_PAGE_SIZE
      ensures ok ==> sections == old(sections) + [sec] && n == old(|sections|)
      ensures !ok ==> sections == old(sections)
    {
      ok, n := |sections| < TARGET_PAGE_SIZE, |sections|;
      if ok {
        sections := sections + [sec];
      }
    }

    /** phys_map_node_reserve */
    method NodeReserve(n: nat)
      modifies this`nodesNbAlloc
      ensures nodesNbAlloc >= |nodes| + n
      ensures if |nodes| + n <= old(nodesNbAlloc) then nodesNbAlloc == old(nodesNbAlloc)
              else nodesNbAlloc >= 16 && nodesNbAlloc >= 2 * old(nodesNbAlloc)
    {
      if |nodes| + n > nodesNbAlloc {
        nodesNbAlloc := if nodesNbAlloc * 2 > 16 then nodesNbAlloc * 2 else 16;
        nodesNbAlloc := if nodesNbAlloc > |nodes| + n then nodesNbAlloc else |nodes| + n;
      }
    }

    /** phys_page_set: at most 2 * P_L2_LEVELS - 1 new nodes, so what is reserved suffices. */
    method PageSet(index: nat, nb: nat, leaf: nat)
      requires PlainOk(nodes, homes) && EntryOk(homes, physMap, P_L2_LEVELS, 0) && physMap.skip == 1
      requires nb > 0 && index + nb <= PAGES
      requires PHYS_SECTION_UNASSIGNED < leaf < PHYS_MAP_NODE_NIL
      requires RootSettable(nodes, physMap, index, index + nb)
      requires |nodes| + 2 * P_L2_LEVELS - 1 <= PHYS_MAP_NODE_NIL
      modifies this`nodes, this`nodesNbAlloc, this`physMap, this`homes
      ensures PlainOk(nodes, homes) && EntryOk(homes, physMap, P_L2_LEVELS, 0) && physMap.skip == 1
      ensures |nodes| <= old(|nodes|) + 2 * P_L2_LEVELS - 1
      ensures SetPages(old(nodes), old(physMap), nodes, physMap, P_L2_LEVELS, 0, index, index + nb, leaf)
    {
      NodeReserve(3 * P_L2_LEVELS);
      TopSpan();
      var index', nb';
      nodes, physMap, index', nb', homes :=
        SetLevel(nodes, nodesNbAlloc, physMap, index, nb, leaf, P_L2_LEVELS - 1, homes, 0, index, index + nb);
    }

    /** phys_page_set of a freshly added section, as both registration functions use it. */
    method AddPages(sec: Section, a: nat, b: nat) returns (ok: bool)
      requires TreeOk(V(), homes)
      requires a < b <= PAGES && Unmapped(nodes, physMap, P_L2_LEVELS, 0, a, b)
      modifies this
      ensures !ok ==> |sections| == TARGET_PAGE_SIZE
      ensures ok <==> old(|sections|) < TARGET_PAGE_SIZE
      ensures ok ==> TreeOk(V(), homes) && PagesAdded(old(V()), V(), sec, a, b)
    {
      ghost var v := V();
      var n;
      ok, n := SectionAdd(sec);
      if !ok {
        return;
      }
      UnmappedRoot(nodes, homes, physMap, a, a + (b - a));
      PageSet(a, b - a, n);
      AllPages(v, V(), sec, a, b);
    }

    /** register_multipage */
    method RegisterMultipage(sec: Section) returns (ok: bool)
      requires Inv(V(), homes) && PageSection(sec) && sec.mr.Registered?
      requires Free(V(), sec)
      modifies this
      ensures !ok ==> |sections| == TARGET_PAGE_SIZE
      ensures ok <==> old(|sections|) < TARGET_PAGE_SIZE
      ensures ok ==> |sections| == old(|sections|) + 1
      ensures ok ==> Inv(V(), homes) && Added(old(V()), V(), sec)
    {
      ghost var v, homes0 := V(), homes;
      var a, b := sec.offAs / TARGET_PAGE_SIZE, (sec.offAs + sec.size) / TARGET_PAGE_SIZE;
      FreePages(v, homes, sec, a, b);
      ok := AddPages(sec, a, b);
      if ok {
        MultipageDone(v, V(), homes0, homes, sec, a, b);
      }
    }

    /** register_subpage: the sub-page of the section's page is made if need be. */
    method RegisterSubpage(sec: Section) returns (ok: bool)
      requires Inv(V(), homes) && ValidSection(sec)
      requires PageOf(sec.offAs) == PageOf(sec.offAs + sec.size - 1)
      requires Free(V(), sec)
      modifies this
      ensures !ok ==> |sections| == TARGET_PAGE_SIZE
      ensures old(|sections|) + 2 <= TARGET_PAGE_SIZE ==> ok
      ensures ok ==> old(|sections|) < |sections| <= old(|sections|) + 2
      ensures ok ==> Inv(V(), homes) && Added(old(V()), V(), sec)
    {
      ghost var v, homes0 := V(), homes;
      var q := PageOf(sec.offAs);
      var base := q * TARGET_PAGE_SIZE;
      SubpagePage(v, homes, sec);
      FindCases(v, homes, base);
      var existing := PhysPageFind(physMap, base, nodes, sections, homes);
      assert existing == Find(v, base);
      assert existing.mr.Subpage? || existing.mr.IoMemUnassigned?;
      if !existing.mr.Subpage? {
        TableInstalled(v, homes, q, seq(TARGET_PAGE_SIZE, _ => PHYS_SECTION_UNASSIGNED));
        subpages := subpages[base := seq(TARGET_PAGE_SIZE, _ => PHYS_SECTION_UNASSIGNED)];
        ok := NewSubpage(q, v, homes0);
        if !ok {
          return;
        }
      }
      ok := EnterTable(sec, q);
    }

    /** The part of register_subpage that maps the page to a new, empty sub-page. */
    method NewSubpage(q: nat, ghost v: View, ghost homes0: seq<Home>) returns (ok: bool)
      requires q < PAGES
      requires Inv(v, homes0) && Inv(V(), homes) && homes == homes0
      requires V() ==
               v.(subpages := v.subpages[q * TARGET_PAGE_SIZE := seq(TARGET_PAGE_SIZE, _ => PHYS_SECTION_UNASSIGNED)])
      requires SectionOf(v, q) == PHYS_SECTION_UNASSIGNED
      modifies this
      ensures !ok ==> |sections| == TARGET_PAGE_SIZE
      ensures ok <==> old(|sections|) < TARGET_PAGE_SIZE
      ensures ok ==> |sections| == old(|sections|) + 1
      ensures ok ==> Shape(V(), homes) && IsSubpage(V(), q) && q * TARGET_PAGE_SIZE in subpages
      ensures ok ==> forall addr :: 0 <= addr < ADDRESS_SPACE ==> Lookup(V(), addr) == Lookup(v, addr)
      ensures ok ==> OthersUsed(V(), q)
    {
      TopSpan();
      ghost var v0 := V();
      ok := AddPages(SubpageSection(q * TARGET_PAGE_SIZE), q, q + 1);
      if ok {
        NewSubpageDone(v, v0, V(), homes0, homes, q);
      }
    }

    /** The part of register_subpage that enters the section into the page's table. */
    method EnterTable(sec: Section, q: nat) returns (ok: bool)
      requires Shape(V(), homes) && q < PAGES && IsSubpage(V(), q) && q * TARGET_PAGE_SIZE in subpages
      requires OthersUsed(V(), q)
      requires ValidSection(sec) && PageOf(sec.offAs) == q == PageOf(sec.offAs + sec.size - 1)
      modifies this`sections, this`subpages
      ensures !ok ==> |sections| == TARGET_PAGE_SIZE
      ensures ok <==> old(|sections|) < TARGET_PAGE_SIZE
      ensures ok ==> |sections| == old(|sections|) + 1
      ensures ok ==> Inv(V(), homes) && Added(old(V()), V(), sec)
    {
      ghost var v := V();
      var base := q * TARGET_PAGE_SIZE;
      var start := sec.offAs % TARGET_PAGE_SIZE;
      var end := start + sec.size - 1;
      var n;
      ok, n := SectionAdd(sec);
      if !ok {
        return;
      }
      TopSpan();
      assert LeafRegion(v, q, SectionOf(v, q));
      var table, ret := SubpageRegister(subpages[base], start, end, n);
      assert ret == 0;
      subpages := subpages[base := table];
      assert TableAdded(v, V(), sec, q, start, end);
      TableAddedShape(v, V(), homes, sec, q, start, end);
      TableAddedUsed(v, V(), homes, sec, q, start, end);
      TableAddedLookup(v, V(), homes, sec, q, start, end);
    }

    /** mem_add: the section is split at page borders and its parts registered, with at most five
        section numbers. */
    method MemAdd(section: Section) returns (ok: bool)
      requires Inv(V(), homes) && ValidSection(section) && Free(V(), section)
      modifies this
      ensures !ok ==> |sections| == TARGET_PAGE_SIZE
      ensures old(|sections|) + Cost(section) <= TARGET_PAGE_SIZE ==> ok
      ensures ok ==> |sections| <= old(|sections|) + Cost(section)
      ensures ok ==> Inv(V(), homes) && AddedUpTo(old(V()), V(), section, section.offAs + section.size)
    {
      ghost var v0 := V();
      var now, remain;
      ok, now := AddHead(section);
      remain := section;
      while ok && remain.size != now.size
        invariant ok ==> Inv(V(), homes) && Progress(v0, V(), section, remain, now)
        invariant !ok ==> |sections| == TARGET_PAGE_SIZE
        invariant old(|sections|) + Cost(section) <= TARGET_PAGE_SIZE ==> ok
        decreases ok, section.offAs + section.size - now.offAs - now.size
      {
        remain := Section(remain.mr, remain.offAs + now.size, remain.offRegion + now.size, remain.size - now.size);
        ok, now := AddNext(section, remain, v0);
      }
    }

    /** The part of mem_add before the loop: the bytes up to the first page border. */
    method AddHead(section: Section) returns (ok: bool, now: Section)
      requires Inv(V(), homes) && ValidSection(section) && Free(V(), section)
      modifies this
      ensures !ok ==> |sections| == TARGET_PAGE_SIZE
      ensures old(|sections|) + Cost(section) <= TARGET_PAGE_SIZE ==> ok
      ensures ok ==> Inv(V(), homes) && Progress(old(V()), V(), section, section, now)
    {
      ghost var v0 := V();
      HeadEnds(section);
      ok, now := true, section.(size := 0);
      if section.offAs % TARGET_PAGE_SIZE != 0 {
        var left := TARGET_PAGE_SIZE - section.offAs % TARGET_PAGE_SIZE;
        now := section.(size := if left < section.size then left else section.size);
        PartOfPage(now);
        ok := RegisterSubpage(now);
        if ok {
          HeadIsPiece(section, now);
          FirstPart(v0, V(), section, now);
        }
      }
    }

    /** One turn of the loop of mem_add. */
    method AddNext(section: Section, remain: Section, ghost v0: View) returns (ok: bool, now: Section)
      requires Inv(V(), homes) && SectionsOk(v0) && Free(v0, section) && ValidSection(section)
      requires IsRest(section, remain) && remain.size > 0 && AtBorder(section, remain.offAs)
      requires AddedUpTo(v0, V(), section, remain.offAs)
      requires |sections| + CostFrom(remain.size) <= |v0.sections| + Cost(section)
      modifies this
      ensures !ok ==> |sections| == TARGET_PAGE_SIZE
      ensures |v0.sections| + Cost(section) <= TARGET_PAGE_SIZE ==> ok
      ensures 0 < now.size
      ensures ok ==> Inv(V(), homes) && Progress(v0, V(), section, remain, now)
    {
      ghost var v := V();
      NextFree(v0, v, section, remain);
      ok, now := AddPart(remain);
      if ok {
        PartIsPiece(section, remain, now);
        PartEnds(section, remain, now);
        NextPart(v0, v, V(), section, now);
      }
    }

    /** One turn of the loop of mem_add: register a first part of `remain`. */
    method AddPart(remain: Section) returns (ok: bool, now: Section)
      requires Inv(V(), homes) && ValidSection(remain) && Free(V(), remain)
      requires remain.offAs % TARGET_PAGE_SIZE == 0
      modifies this
      ensures !ok ==> |sections| == TARGET_PAGE_SIZE
      ensures now == remain.(size := WholePages(remain.size)) && 0 < now.size <= remain.size
      ensures remain.size == now.size || (now.offAs + now.size) % TARGET_PAGE_SIZE == 0
      ensures old(|sections|) + CostFrom(remain.size) <= TARGET_PAGE_SIZE ==> ok
      ensures ok ==> |sections| + CostFrom(remain.size - now.size) <= old(|sections|) + CostFrom(remain.size)
      ensures ok ==> Inv(V(), homes) && Added(old(V()), V(), now)
    {
      now := remain;
      if remain.size < TARGET_PAGE_SIZE {
        PartOfPage(now);
        ok := RegisterSubpage(now);
      } else if remain.offAs % TARGET_PAGE_SIZE != 0 {
        assert false; // every part but the first starts at a page border
      } else {
        now := now.(size := now.size - now.size % TARGET_PAGE_SIZE);
        ok := RegisterMultipage(now);
      }
    }

    /** mem_commit, up to publishing the dispatch: the tree is compacted. */
    method Commit()
      requires Inv(V(), homes)
      modifies this`nodes, this`physMap
      ensures Ready(V(), homes) && Tight(nodes, physMap, P_L2_LEVELS)
      ensures forall addr :: 0 <= addr < ADDRESS_SPACE ==>
                Find(V(), addr) == old(Find(V(), addr)) && Lookup(V(), addr) == old(Lookup(V(), addr))
    {
      ghost var v := V();
      if physMap.skip != 0 {
        nodes, physMap := Compact(nodes, physMap, P_L2_LEVELS, homes, 0);
      }
      CompactedLookup(v, V(), homes);
    }

    /** mem_add of section `k` of the flat view. */
    method AddSection(view: seq<Section>, k: nat) returns (ok: bool)
      requires k < |view| && Disjoint(view) && ValidSection(view[k])
      requires Inv(V(), homes) && Answers(view[..k], V())
      modifies this
      ensures !ok ==> |sections| == TARGET_PAGE_SIZE < old(|sections|) + 5
      ensures ok ==> Inv(V(), homes) && |sections| <= old(|sections|) + 5 && Answers(view[..k + 1], V())
    {
      ghost var v := V();
      NextSectionFree(view, k, v);
      ok := MemAdd(view[k]);
      if ok {
        NextSectionAdded(view, k, v, V());
      }
    }

    method AddSections(view: seq<Section>) returns (ok: bool)
      requires Disjoint(view) && forall i :: 0 <= i < |view| ==> ValidSection(view[i])
      requires Inv(V(), homes) && |sections| == 4 && Answers([], V())
      modifies this
      ensures !ok ==> |sections| == TARGET_PAGE_SIZE < 4 + 5 * |view|
      ensures ok ==> Inv(V(), homes) && |sections| <= 4 + 5 * |view| && Answers(view, V())
    {
      var k := 0;
      ok := true;
      assert view[..0] == [];
      while k < |view| && ok
        invariant k <= |view|
        invariant ok ==> Inv(V(), homes) && |sections| <= 4 + 5 * k && Answers(view[..k], V())
        invariant !ok ==> |sections| == TARGET_PAGE_SIZE < 4 + 5 * |view|
      {
        ok := AddSection(view, k);
        k := k + 1;
      }
      assert view[..|view|] == view;
    }

    method Finish(ghost view: seq<Section>)
      requires Inv(V(), homes) && Answers(view, V())
      modifies this`nodes, this`physMap
      ensures Ready(V(), homes) && Tight(nodes, physMap, P_L2_LEVELS) && Answers(view, V())
    {
      ghost var v := V();
      Commit();
      SameAnswers(view, v, V());
    }

    /** address_space_lookup_region */
    method LookupRegion(addr: nat, resolveSubpage: bool) returns (s: Section)
      requires Ready(V(), homes) && addr < ADDRESS_SPACE
      ensures s == if resolveSubpage then Lookup(V(), addr) else Find(V(), addr)
    {
      assert ReadyAt(V(), addr);
      s := PhysPageFind(physMap, addr, nodes, sections, homes);
      if resolveSubpage && s.mr.Subpage? {
        s := sections[subpages[s.mr.base][addr % TARGET_PAGE_SIZE]];
      }
    }
  }

  /** What of `n` bytes from a page border on is registered at once: the whole pages, or all of it
      if there is none. */
  function WholePages(n: nat): nat {
    if n < TARGET_PAGE_SIZE then n else n - n % TARGET_PAGE_SIZE
  }

  /** How many section numbers `n` bytes from a page border on may use: one for the whole pages, two
      for a rest with its sub-page. */
  function CostFrom(n: nat): nat {
    (if n >= TARGET_PAGE_SIZE then 1 else 0) + if n % TARGET_PAGE_SIZE != 0 then 2 else 0
  }

  /** How many section numbers a section may use. */
  function Cost(s: Section): (n: nat)
    ensures n <= 5
  {
    var left := TARGET_PAGE_SIZE - s.offAs % TARGET_PAGE_SIZE;
    if s.offAs % TARGET_PAGE_SIZE == 0 then CostFrom(s.size)
    else if s.size <= left then 2 else 2 + CostFrom(s.size - left)
  }

  /** The part of section `s` in [a, b). */
  function Part(s: Section, a: nat, b: nat): Section
    requires s.offAs <= a <= b
  {
    Section(s.mr, a, s.offRegion + (a - s.offAs), b - a)
  }

  function PageUp(n: nat): nat {
    (n + TARGET_PAGE_SIZE - 1) / TARGET_PAGE_SIZE * TARGET_PAGE_SIZE
  }

  function PageDown(n: nat): nat {
    n / TARGET_PAGE_SIZE * TARGET_PAGE_SIZE
  }

  /** The piece of section `s` around byte `addr`: the bytes before its first page border, its
      whole pages, or the bytes behind them. */
  function PieceAt(s: Section, addr: nat): (p: Section)
    requires Contains(s, addr)
    ensures PieceOf(p, s, addr)
  {
    var first, last, end := PageUp(s.offAs), PageDown(s.offAs + s.size), s.offAs + s.size;
    if addr < first then Part(s, s.offAs, if first < end then first else end)
    else if addr < last then Part(s, first, last)
    else Part(s, last, end)
  }

  /** `p` is a piece of section `s` around byte `addr`, at the matching region offset. */
  predicate PieceOf(p: Section, s: Section, addr: nat) {
    && p.mr == s.mr && Contains(p, addr)
    && s.offAs <= p.offAs && p.offAs + p.size <= s.offAs + s.size
    && p.offRegion - p.offAs == s.offRegion - s.offAs
  }

  /** The bytes of `s` below `done` go to pieces of `s`; all other bytes go where they went. */
  ghost predicate AddedUpTo(v0: View, v: View, s: Section, done: nat)
    requires |v0.sections| > 0 && |v.sections| > 0
  {
    forall addr :: 0 <= addr < ADDRESS_SPACE ==>
      if Contains(s, addr) && addr < done
      then Lookup(v, addr) == PieceAt(s, addr)
      else Lookup(v, addr) == Lookup(v0, addr)
  }

  /** `r` is what remains of `s` from `r.offAs` on. */
  predicate IsRest(s: Section, r: Section) {
    && r.mr == s.mr && s.offAs <= r.offAs && r.offAs + r.size == s.offAs + s.size
    && r.offRegion - r.offAs == s.offRegion - s.offAs
  }

  lemma PartOfPage(p: Section)
    requires 0 < p.size <= TARGET_PAGE_SIZE - p.offAs % TARGET_PAGE_SIZE
    ensures PageOf(p.offAs) == PageOf(p.offAs + p.size - 1)
  {
  }

  /** `p` is the piece of `s` around each of its bytes. */
  ghost predicate IsPiece(s: Section, p: Section) {
    forall addr :: Contains(p, addr) ==> Contains(s, addr) && PieceAt(s, addr) == p
  }

  /** How far mem_add is: `now` is the part of `remain` registered last. */
  ghost predicate Progress(v0: View, v: View, s: Section, remain: Section, now: Section)
    requires |v0.sections| > 0 && |v.sections| > 0
  {
    && IsRest(s, remain) && now == remain.(size := now.size) && now.size <= remain.size
    && (remain.size == now.size || AtBorder(s, now.offAs + now.size))
    && AddedUpTo(v0, v, s, now.offAs + now.size)
    && |v.sections| + CostFrom(remain.size - now.size) <= |v0.sections| + Cost(s)
  }

  lemma HeadIsPiece(s: Section, p: Section)
    requires s.offAs % TARGET_PAGE_SIZE != 0 && p == s.(size := p.size)
    requires var left := TARGET_PAGE_SIZE - s.offAs % TARGET_PAGE_SIZE; p.size == if left < s.size then left else s.size
    ensures IsPiece(s, p)
  {
    HeadEnds(s);
  }

  lemma HeadEnds(s: Section)
    ensures s.offAs % TARGET_PAGE_SIZE != 0 ==>
              PageUp(s.offAs) == s.offAs + (TARGET_PAGE_SIZE - s.offAs % TARGET_PAGE_SIZE)
    ensures s.offAs % TARGET_PAGE_SIZE == 0 ==> PageUp(s.offAs) == s.offAs
  {
  }

  lemma PartIsPiece(s: Section, r: Section, p: Section)
    requires IsRest(s, r) && AtBorder(s, r.offAs) && p == r.(size := WholePages(r.size))
    ensures IsPiece(s, p)
  {
    PartEnds(s, r, p);
    forall addr | Contains(p, addr) ensures Contains(s, addr) && PieceAt(s, addr) == p {
    }
  }

  /** The page borders at which mem_add splits. */
  predicate AtBorder(s: Section, a: nat) {
    a % TARGET_PAGE_SIZE == 0 && (a == PageUp(s.offAs) || a == PageDown(s.offAs + s.size))
  }

  lemma PartEnds(s: Section, r: Section, p: Section)
    requires IsRest(s, r) && AtBorder(s, r.offAs) && p == r.(size := WholePages(r.size))
    ensures p.offAs + p.size == if r.size < TARGET_PAGE_SIZE then s.offAs + s.size else PageDown(s.offAs + s.size)
    ensures p.size == r.size || AtBorder(s, p.offAs + p.size)
  {
  }

  lemma FirstPart(v0: View, v: View, s: Section, p: Section)
    requires |v0.sections| > 0 && |v.sections| > 0
    requires Added(v0, v, p) && p == s.(size := p.size) && 0 < p.size <= s.size
    requires IsPiece(s, p)
    ensures AddedUpTo(v0, v, s, p.offAs + p.size)
  {
  }

  lemma NextFree(v0: View, v: View, s: Section, p: Section)
    requires SectionsOk(v0) && SectionsOk(v)
    requires Free(v0, s) && AddedUpTo(v0, v, s, p.offAs)
    requires s.offAs <= p.offAs && p.offAs + p.size <= s.offAs + s.size
    ensures Free(v, p)
  {
  }

  lemma NextPart(v0: View, v: View, v1: View, s: Section, p: Section)
    requires |v0.sections| > 0 && |v.sections| > 0 && |v1.sections| > 0
    requires AddedUpTo(v0, v, s, p.offAs) && Added(v, v1, p)
    requires s.offAs <= p.offAs && p.offAs + p.size <= s.offAs + s.size && IsPiece(s, p)
    ensures AddedUpTo(v0, v1, s, p.offAs + p.size)
  {
  }

  /** What a lookup of `addr` relies on. */
  ghost predicate ReadyAt(v: View, addr: nat)
    requires |v.sections| > 0
  {
    && SectionOf(v, PageOf(addr)) < |v.sections|
    && (Find(v, addr).mr.Subpage? ==>
          Find(v, addr).mr.base in v.subpages && TableOk(v, v.subpages[Find(v, addr).mr.base]))
  }

  /** A dispatch that may be looked up in, compacted or not. */
  ghost predicate Ready(v: View, homes: seq<Home>) {
    && NodesOk(v.nodes, homes) && EntryOk(homes, v.root, P_L2_LEVELS, 0)
    && |v.sections| > 0 && v.sections[PHYS_SECTION_UNASSIGNED] == DummySection(IoMemUnassigned)
    && forall addr :: 0 <= addr < ADDRESS_SPACE ==> ReadyAt(v, addr)
  }

  /** Compaction preserves phys_page_find for every address: where the compacted
      descent ends in a section the page is not mapped to, the range check refuses it. */
  lemma CompactedFind(v: View, v1: View, homes: seq<Home>, addr: nat)
    requires Inv(v, homes) && v1.sections == v.sections && addr < ADDRESS_SPACE
    requires Compacted(v.nodes, v.root, v1.nodes, v1.root, P_L2_LEVELS, 0)
    ensures SectionOf(v1, PageOf(addr)) < |v.sections| && Find(v1, addr) == Find(v, addr)
  {
    FindCases(v, homes, addr);
    var q := PageOf(addr);
    assert CompactedAt(v.nodes, v.root, v1.nodes, v1.root, P_L2_LEVELS, 0, q);
    var s := SectionOf(v1, q);
    if s != SectionOf(v, q) {
      assert Reaches(v.nodes, v.root, P_L2_LEVELS, 0, s);
      var q' :| 0 <= q' < 0 + Span(P_L2_LEVELS) && Walk(v.nodes, v.root, P_L2_LEVELS, q') == s;
      assert SectionOf(v, q') == s;
      assert LeafExact(v, s);
      PageBytes(v.sections[s], addr);
    }
  }

  lemma CompactedLookup(v: View, v1: View, homes: seq<Home>)
    requires Inv(v, homes)
    requires v1 == v.(root := v1.root, nodes := v1.nodes)
    requires NodesOk(v1.nodes, homes) && EntryOk(homes, v1.root, P_L2_LEVELS, 0)
    requires Compacted(v.nodes, v.root, v1.nodes, v1.root, P_L2_LEVELS, 0)
    ensures Ready(v1, homes)
    ensures forall addr :: 0 <= addr < ADDRESS_SPACE ==>
              Find(v1, addr) == Find(v, addr) && Lookup(v1, addr) == Lookup(v, addr)
  {
    forall addr | 0 <= addr < ADDRESS_SPACE
      ensures ReadyAt(v1, addr) && Find(v1, addr) == Find(v, addr) && Lookup(v1, addr) == Lookup(v, addr)
    {
      CompactedFind(v, v1, homes, addr);
      FindCases(v, homes, addr);
      LookupCases(v, homes, addr);
    }
  }

  lemma SubpageAligned(q: nat)
    requires (q + 1) * TARGET_PAGE_SIZE <= ADDRESS_SPACE
    ensures var sub := SubpageSection(q * TARGET_PAGE_SIZE);
            && PageSection(sub) && sub.offAs / TARGET_PAGE_SIZE == q
            && (sub.offAs + sub.size) / TARGET_PAGE_SIZE == q + 1
  {
  }

  lemma SubpageLeaves(v: View, v1: View, homes: seq<Home>, q: nat)
    requires Shape(v, homes) && q < PAGES && SectionOf(v, q) == PHYS_SECTION_UNASSIGNED
    requires PagesAdded(v, v1, SubpageSection(q * TARGET_PAGE_SIZE), q, q + 1) && LeafRegion(v1, q, |v.sections|)
    ensures LeavesOk(v1)
  {
    TopSpan();
    SubpageAligned(q);
    LeavesAfterAdd(v, v1, homes, SubpageSection(q * TARGET_PAGE_SIZE), q, q + 1);
  }

  lemma NewSubpageDone(v: View, v0: View, v1: View, homes: seq<Home>, homes1: seq<Home>, q: nat)
    requires Inv(v, homes) && Inv(v0, homes) && TreeOk(v1, homes1) && q < PAGES
    requires v0 ==
             v.(subpages := v.subpages[q * TARGET_PAGE_SIZE := seq(TARGET_PAGE_SIZE, _ => PHYS_SECTION_UNASSIGNED)])
    requires SectionOf(v, q) == PHYS_SECTION_UNASSIGNED
    requires PagesAdded(v0, v1, SubpageSection(q * TARGET_PAGE_SIZE), q, q + 1)
    ensures Shape(v1, homes1) && IsSubpage(v1, q) && q * TARGET_PAGE_SIZE in v1.subpages
    ensures forall addr :: 0 <= addr < ADDRESS_SPACE ==> Lookup(v1, addr) == Lookup(v, addr)
    ensures OthersUsed(v1, q)
  {
    TopSpan();
    var sub := SubpageSection(q * TARGET_PAGE_SIZE);
    SubpageAligned(q);
    assert LeafRegion(v1, q, |v0.sections|);
    SubpageLeaves(v0, v1, homes, q);
    EmptySubpage(v, v1, homes, homes1, q);
    OthersStillUsed(v0, v1, homes, sub, q);
  }

  lemma AllPages(v: View, v1: View, sec: Section, a: nat, b: nat)
    requires v1.sections == v.sections + [sec] && v1.subpages == v.subpages
    requires SetPages(v.nodes, v.root, v1.nodes, v1.root, P_L2_LEVELS, 0, a, b, |v.sections|)
    ensures PagesAdded(v, v1, sec, a, b)
  {
  }

  /** Sub-pages other than the one at page `q` have a byte registered. */
  ghost predicate OthersUsed(v: View, q: nat) {
    forall p :: 0 <= p < Span(P_L2_LEVELS) && p != q && IsSubpage(v, p) && p * TARGET_PAGE_SIZE in v.subpages ==>
      TableUsed(v.subpages[p * TARGET_PAGE_SIZE])
  }

  lemma OthersStillUsed(v: View, v1: View, homes: seq<Home>, sub: Section, q: nat)
    requires Inv(v, homes) && PagesAdded(v, v1, sub, q, q + 1)
    ensures OthersUsed(v1, q)
  {
  }

  lemma UsedAfterAdd(v: View, v1: View, homes: seq<Home>, sec: Section, a: nat, b: nat)
    requires Inv(v, homes) && PagesAdded(v, v1, sec, a, b) && sec.mr.Registered?
    ensures TablesUsed(v1)
  {
  }

  /** The assertion of register_subpage: the page has a sub-page or nothing. */
  lemma SubpagePage(v: View, homes: seq<Home>, sec: Section)
    requires Inv(v, homes) && ValidSection(sec) && Free(v, sec)
    ensures var q := PageOf(sec.offAs);
            && q < PAGES && OthersUsed(v, q)
            && (SectionOf(v, q) == PHYS_SECTION_UNASSIGNED
                || (IsSubpage(v, q) && q * TARGET_PAGE_SIZE in v.subpages))
  {
    var q := PageOf(sec.offAs);
    LookupCases(v, homes, sec.offAs);
    assert Lookup(v, sec.offAs) == v.sections[0];
  }

  ghost predicate Disjoint(view: seq<Section>) {
    forall i, j, addr :: 0 <= i < j < |view| && Contains(view[i], addr) ==> !Contains(view[j], addr)
  }

  /** `s` is the right answer for byte `addr` of the flat view: the piece of the one
      section that contains it, or the unassigned section when none does. */
  ghost predicate Answer(view: seq<Section>, s: Section, addr: nat) {
    if exists i :: 0 <= i < |view| && Contains(view[i], addr)
    then exists i :: 0 <= i < |view| && Contains(view[i], addr) && s == PieceAt(view[i], addr)
    else s == DummySection(IoMemUnassigned)
  }

  /** Every lookup gives the right answer. */
  ghost predicate Answers(view: seq<Section>, v: View)
    requires |v.sections| > 0
  {
    forall addr :: 0 <= addr < ADDRESS_SPACE ==> Answer(view, Lookup(v, addr), addr)
  }

  /** The next section of a disjoint view is free, and adding it extends the answers. */
  lemma NextSectionFree(view: seq<Section>, k: nat, v: View)
    requires k < |view| && Disjoint(view) && SectionsOk(v)
    requires Answers(view[..k], v)
    ensures Free(v, view[k])
  {
  }

  lemma NextSectionAdded(view: seq<Section>, k: nat, v: View, v1: View)
    requires k < |view| && Disjoint(view) && |v.sections| > 0 && |v1.sections| > 0
    requires Answers(view[..k], v)
    requires AddedUpTo(v, v1, view[k], view[k].offAs + view[k].size)
    ensures Answers(view[..k + 1], v1)
  {
    forall addr | 0 <= addr < ADDRESS_SPACE ensures Answer(view[..k + 1], Lookup(v1, addr), addr) {
      assert Answer(view[..k], Lookup(v, addr), addr);
      NextAnswer(view[..k], view[k], Lookup(v, addr), Lookup(v1, addr), addr);
      assert view[..k] + [view[k]] == view[..k + 1];
    }
  }

  lemma NextAnswer(view: seq<Section>, s: Section, was: Section, now: Section, addr: nat)
    requires Answer(view, was, addr)
    requires Contains(s, addr) ==> forall i :: 0 <= i < |view| ==> !Contains(view[i], addr)
    requires if Contains(s, addr) then now == PieceAt(s, addr) else now == was
    ensures Answer(view + [s], now, addr)
  {
    var view' := view + [s];
    if Contains(s, addr) {
      assert view'[|view|] == s;
    } else if i :| 0 <= i < |view| && Contains(view[i], addr) && was == PieceAt(view[i], addr) {
      assert view'[i] == view[i];
    }
  }

  /** One topology update: mem_begin, mem_add for every section of a disjoint flat
      view, mem_commit. The program stops if the section numbers run out. */
  method Build(view: seq<Section>) returns (ok: bool, d: Dispatch)
    requires forall i :: 0 <= i < |view| ==> ValidSection(view[i])
    requires Disjoint(view)
    ensures fresh(d)
    ensures !ok ==> |d.sections| == TARGET_PAGE_SIZE
    ensures 4 + 5 * |view| <= TARGET_PAGE_SIZE ==> ok
    ensures ok ==> |d.sections| <= 4 + 5 * |view|
    ensures ok ==> Ready(d.V(), d.homes) && Tight(d.nodes, d.physMap, P_L2_LEVELS)
    ensures ok ==> Answers(view, d.V())
  {
    d := new Dispatch();
    EmptyAnswers(d.V());
    ok := d.AddSections(view);
    if ok {
      d.Finish(view);
    }
  }

  lemma EmptyAnswers(v: View)
    requires |v.sections| > 0
    requires forall addr :: 0 <= addr < ADDRESS_SPACE ==> Lookup(v, addr) == DummySection(IoMemUnassigned)
    ensures Answers([], v)
  {
  }

  lemma SameAnswers(view: seq<Section>, v: View, v1: View)
    requires |v.sections| > 0 && |v1.sections| > 0 && Answers(view, v)
    requires forall addr :: 0 <= addr < ADDRESS_SPACE ==> Lookup(v1, addr) == Lookup(v, addr)
    ensures Answers(view, v1)
  {
  }
}
