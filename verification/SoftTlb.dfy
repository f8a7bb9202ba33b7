/** The soft TLB: a direct-mapped table and a victim table per MMU mode, and one region that
    remembers all large pages (cputlb.c). */
module SoftTlb {

  type Word = bv64

  const EMPTY_FIELD: Word := 0xffff_ffff_ffff_ffff
  const PAGE_MASK: Word := 0xffff_ffff_ffff_f000
  const TAG_MASK: Word := 0xffff_ffff_ffff_f008   // TARGET_PAGE_MASK | TLB_INVALID_MASK
  const FLAG_BITS: Word := 0x30                   // TLB_NOTDIRTY | TLB_MMIO
  const CPU_TLB_SIZE: nat := 256
  const CPU_VTLB_SIZE: nat := 8

  datatype Entry = Entry(read: Word, write: Word, code: Word)

  const EMPTY: Entry := Entry(EMPTY_FIELD, EMPTY_FIELD, EMPTY_FIELD)

  /** A large page since the last full flush: an address in it and its size. */
  datatype Large = Large(vaddr: Word, size: Word)

  /** The addresses that differ from that of the page in the bits below the size only. */
  predicate InLarge(a: Word, l: Large) {
    a ^ l.vaddr < l.size
  }

  /** For a page given by its first address: as many addresses from there on as its size. */
  lemma LargeRange(l: Large, a: Word, d: Word)
    requires PowerOfTwo(l.size) && l.vaddr & (l.size - 1) == 0 && d < l.size && a == l.vaddr + d
    ensures InLarge(a, l)
  {
    LowBits(d, l);
    DisjointSum(l.vaddr, d);
    XorBack(l.vaddr, d);
  }

  lemma LargeOffset(l: Large, a: Word) returns (d: Word)
    requires PowerOfTwo(l.size) && l.vaddr & (l.size - 1) == 0 && InLarge(a, l)
    ensures d < l.size && a == l.vaddr + d
  {
    d := a ^ l.vaddr;
    LowBits(d, l);
    DisjointSum(l.vaddr, d);
    XorBack(l.vaddr, a);
  }

  lemma XorBack(x: Word, y: Word)
    ensures (x ^ y) ^ x == y && x ^ (y ^ x) == y
  {
  }

  lemma LowBits(d: Word, l: Large)
    requires PowerOfTwo(l.size) && l.vaddr & (l.size - 1) == 0 && d < l.size
    ensures l.vaddr & d == 0
  {
  }

  lemma DisjointSum(x: Word, y: Word)
    requires x & y == 0
    ensures x + y == x ^ y
  {
  }

  function Index(vaddr: Word): (i: nat)
    ensures i < CPU_TLB_SIZE
  {
    ((vaddr >> 12) & 0xff) as bv8 as nat
  }

  /** Two addresses have the same index exactly if their page numbers agree modulo the size of
      the table. */
  lemma IndexSame(a: Word, b: Word)
    ensures Index(a) == Index(b) <==> (a ^ b) & 0xf_f000 == 0
  {
    var x, y := (a >> 12) & 0xff, (b >> 12) & 0xff;
    assert x == y <==> (a ^ b) & 0xf_f000 == 0;
    ByteValue(x as bv8, y as bv8);
  }

  lemma ByteValue(x: bv8, y: bv8)
    ensures x as nat == y as nat <==> x == y
  {
  }

  predicate PowerOfTwo(size: Word) {
    size != 0 && size & (size - 1) == 0
  }

  function MaskOf(size: Word): Word {
    !(size - 1)
  }

  /** Ones above zeros. */
  predicate PrefixMask(m: Word) {
    (m << 1) & m == m << 1
  }

  // The region of large pages

  /** The region (addr, mask) contains the large page. */
  predicate Contains(addr: Word, mask: Word, l: Large) {
    PowerOfTwo(l.size) && mask & MaskOf(l.size) == mask && l.vaddr & mask == addr
  }

  /** A region of whole pages, or of everything. */
  predicate Aligned(addr: Word, mask: Word) {
    PrefixMask(mask) && mask & 0xfff == 0 && addr & mask == addr
  }

  /** The recorded region covers every large page since the last full flush. */
  ghost predicate Region(flushAddr: Word, flushMask: Word, large: set<Large>) {
    if large == {} then flushAddr == EMPTY_FIELD && flushMask == 0
    else Aligned(flushAddr, flushMask) && forall l :: l in large ==> Contains(flushAddr, flushMask, l)
  }

  predicate Coarser(m: Word, mask: Word) {
    m & mask == m
  }

  predicate Agree(a: Word, b: Word, m: Word) {
    (a ^ b) & m == 0
  }

  /** Under the prefix mask `m` all the large pages lie in one block. */
  ghost predicate OneBlock(m: Word, large: set<Large>) {
    && PrefixMask(m)
    && (forall l :: l in large ==> Coarser(m, MaskOf(l.size)))
    && (forall l, k :: l in large && k in large ==> Agree(l.vaddr, k.vaddr, m))
  }

  /** The recorded region is the smallest such block. */
  ghost predicate Least(flushMask: Word, large: set<Large>) {
    large != {} ==> forall m :: OneBlock(m, large) ==> Coarser(m, flushMask)
  }

  lemma LeastFirst(l: Large)
    ensures Least(MaskOf(l.size), {l})
  {
  }

  lemma LeastWidened(addr: Word, mask: Word, large: set<Large>, l: Large, wider: Word)
    requires Region(addr, mask, large) && large != {} && Least(mask, large)
    requires Finest(wider, addr, l.vaddr, MaskOf(l.size), mask)
    ensures Least(wider, large + {l})
  {
    var k :| k in large;
    forall m | OneBlock(m, large + {l}) ensures Coarser(m, wider) {
      assert OneBlock(m, large);
      assert k in large + {l} && l in large + {l};
      LeastStep(addr, mask, k, l, m, wider);
    }
  }

  lemma LeastStep(addr: Word, mask: Word, k: Large, l: Large, m: Word, wider: Word)
    requires PrefixMask(m) && Coarser(m, mask) && Coarser(m, MaskOf(l.size)) && Agree(k.vaddr, l.vaddr, m)
    requires Contains(addr, mask, k) && Finest(wider, addr, l.vaddr, MaskOf(l.size), mask)
    ensures Coarser(m, wider)
  {
    AgreesUnder(addr, mask, k.vaddr, l.vaddr, m);
    assert CoarserThan(m, MaskOf(l.size), mask);
  }

  lemma AgreesUnder(addr: Word, mask: Word, k: Word, v: Word, m: Word)
    requires Coarser(m, mask) && k & mask == addr && Agree(k, v, m)
    ensures Agree(addr, v, m)
  {
  }

  /** Every prefix mask coarser than both masks under which the addresses agree is coarser than
      `mask`. */
  ghost predicate Finest(mask: Word, flushAddr: Word, vaddr: Word, pageMask: Word, flushMask: Word) {
    forall m :: CoarserThan(m, pageMask, flushMask) && Agree(flushAddr, vaddr, m) ==> Coarser(m, mask)
  }

  lemma FinestMeet(flushAddr: Word, vaddr: Word, pageMask: Word, flushMask: Word)
    ensures Finest(pageMask & flushMask, flushAddr, vaddr, pageMask, flushMask)
  {
  }

  lemma FinestShift(mask: Word, next: Word, flushAddr: Word, vaddr: Word, pageMask: Word, flushMask: Word)
    requires PrefixMask(mask) && next == mask << 1
    requires !Agree(flushAddr, vaddr, mask) && Finest(mask, flushAddr, vaddr, pageMask, flushMask)
    ensures Finest(next, flushAddr, vaddr, pageMask, flushMask)
  {
    forall m | CoarserThan(m, pageMask, flushMask) && Agree(flushAddr, vaddr, m) ensures Coarser(m, next) {
      NotSame(flushAddr, vaddr, m, mask);
      CoarserByOne(m, mask);
    }
  }

  lemma NotSame(a: Word, v: Word, m: Word, mask: Word)
    requires Agree(a, v, m) && !Agree(a, v, mask)
    ensures m != mask
  {
  }

  lemma CoarserByOne(m: Word, mask: Word)
    requires PrefixMask(m) && PrefixMask(mask) && Coarser(m, mask) && m != mask
    ensures Coarser(m, mask << 1)
  {
  }

  /** An address in the region lies in every block that holds all the large pages. */
  lemma RegionInBlock(flushAddr: Word, flushMask: Word, large: set<Large>, a: Word, m: Word, l: Large)
    requires Region(flushAddr, flushMask, large) && Least(flushMask, large) && InRegion(flushAddr, flushMask, a)
    requires OneBlock(m, large) && l in large
    ensures Agree(a, l.vaddr, m)
  {
    assert Coarser(m, flushMask) && Contains(flushAddr, flushMask, l);
    BothUnder(flushAddr, flushMask, a, l.vaddr, m);
  }

  lemma BothUnder(addr: Word, mask: Word, a: Word, v: Word, m: Word)
    requires Coarser(m, mask) && a & mask == addr && v & mask == addr
    ensures Agree(a, v, m)
  {
  }

  lemma NotSentinel(a: Word, m: Word)
    requires Aligned(a, m)
    ensures a != EMPTY_FIELD
  {
  }

  /** An address in a recorded large page lies in the region. */
  lemma ContainsAddress(addr: Word, mask: Word, l: Large, a: Word)
    requires Contains(addr, mask, l) && InLarge(a, l)
    ensures InRegion(addr, mask, a)
  {
  }

  lemma AlignedWidened(addr: Word, mask: Word, wider: Word, addr': Word)
    requires Aligned(addr, mask) && PrefixMask(wider) && wider & mask == wider && addr' == addr & wider
    ensures Aligned(addr', wider)
  {
  }

  lemma ContainsNew(addr: Word, l: Large, wider: Word, addr': Word)
    requires PowerOfTwo(l.size) && wider & MaskOf(l.size) == wider
    requires (addr ^ l.vaddr) & wider == 0 && addr' == addr & wider
    ensures Contains(addr', wider, l)
  {
  }

  lemma RegionWidened(addr: Word, mask: Word, large: set<Large>, l: Large, wider: Word, addr': Word)
    requires Region(addr, mask, large) && large != {} && wider & mask == wider && addr' == addr & wider
    requires Aligned(addr', wider) && Contains(addr', wider, l)
    ensures Region(addr', wider, large + {l})
  {
  }

  /** The first large page is its own region. */
  lemma FirstRegion(vaddr: Word, size: Word)
    requires PowerOfTwo(size) && size > 0xfff
    ensures Aligned(vaddr & MaskOf(size), MaskOf(size))
    ensures Contains(vaddr & MaskOf(size), MaskOf(size), Large(vaddr, size))
  {
  }

  /** `m` is a prefix mask coarser than both. */
  predicate CoarserThan(m: Word, a: Word, b: Word) {
    PrefixMask(m) && m & a == m && m & b == m
  }

  lemma MeetCoarser(a: Word, b: Word)
    requires PrefixMask(a) && PrefixMask(b)
    ensures CoarserThan(a & b, a, b)
  {
  }

  lemma ShiftCoarser(m: Word, a: Word, b: Word)
    requires CoarserThan(m, a, b) && m != 0
    ensures CoarserThan(m << 1, a, b) && m << 1 < m
  {
  }

  /** The loop of tlb_add_large_page: widens the mask until both addresses agree under it. */
  method WidenMask(flushAddr: Word, flushMask: Word, vaddr: Word, pageMask: Word) returns (mask: Word)
    requires PrefixMask(flushMask) && PrefixMask(pageMask)
    ensures CoarserThan(mask, pageMask, flushMask) && Agree(flushAddr, vaddr, mask)
    ensures Finest(mask, flushAddr, vaddr, pageMask, flushMask)
  {
    mask := pageMask & flushMask;
    MeetCoarser(pageMask, flushMask);
    FinestMeet(flushAddr, vaddr, pageMask, flushMask);
    while (flushAddr ^ vaddr) & mask != 0
      invariant CoarserThan(mask, pageMask, flushMask)
      invariant Finest(mask, flushAddr, vaddr, pageMask, flushMask)
      decreases mask
    {
      FinestShift(mask, mask << 1, flushAddr, vaddr, pageMask, flushMask);
      ShiftCoarser(mask, pageMask, flushMask);
      mask := mask << 1;
    }
  }

  /** tlb_add_large_page: the region afterwards is the smallest that covers the new page as well. */
  method AddLargePage(flushAddr: Word, flushMask: Word, vaddr: Word, size: Word, ghost large: set<Large>)
    returns (flushAddr': Word, flushMask': Word)
    requires Region(flushAddr, flushMask, large) && Least(flushMask, large) && PowerOfTwo(size) && size > 0xfff
    ensures Region(flushAddr', flushMask', large + {Large(vaddr, size)})
    ensures Least(flushMask', large + {Large(vaddr, size)})
  {
    ghost var l := Large(vaddr, size);
    FirstRegion(vaddr, size);
    if flushAddr == EMPTY_FIELD {
      if large != {} {
        NotSentinel(flushAddr, flushMask);
      }
      assert large + {l} == {l};
      LeastFirst(l);
      return vaddr & MaskOf(size), MaskOf(size);
    }
    flushMask' := WidenMask(flushAddr, flushMask, vaddr, MaskOf(size));
    flushAddr' := flushAddr & flushMask';
    LeastWidened(flushAddr, flushMask, large, l, flushMask');
    AlignedWidened(flushAddr, flushMask, flushMask', flushAddr');
    ContainsNew(flushAddr, l, flushMask', flushAddr');
    RegionWidened(flushAddr, flushMask, large, l, flushMask', flushAddr');
  }

  predicate InRegion(flushAddr: Word, flushMask: Word, a: Word) {
    a & flushMask == flushAddr
  }

  /** Some large page since the last full flush contains the address. */
  ghost predicate HitsLarge(large: set<Large>, a: Word) {
    exists l :: l in large && InLarge(a, l)
  }

  // Entries

  predicate IsPage(a: Word) {
    a & PAGE_MASK == a
  }

  function PageOf(a: Word): (page: Word)
    ensures IsPage(page)
  {
    a & PAGE_MASK
  }

  predicate FieldMatches(f: Word, page: Word) {
    f & TAG_MASK == page
  }

  predicate Matches(e: Entry, page: Word) {
    FieldMatches(e.read, page) || FieldMatches(e.write, page) || FieldMatches(e.code, page)
  }

  /** A field of a direct-mapped entry is empty or has its page's index. */
  predicate FieldAt(f: Word, i: nat) {
    f == EMPTY_FIELD || (f & 8 == 0 && Index(f & TAG_MASK) == i)
  }

  predicate EntryAt(e: Entry, i: nat) {
    FieldAt(e.read, i) && FieldAt(e.write, i) && FieldAt(e.code, i)
  }

  lemma EmptyNoMatch(page: Word)
    requires IsPage(page)
    ensures !Matches(EMPTY, page)
  {
  }

  /** An entry that matches a page sits at the page's index. */
  lemma MatchesAt(e: Entry, i: nat, page: Word)
    requires EntryAt(e, i) && Matches(e, page) && IsPage(page)
    ensures i == Index(page)
  {
  }

  /** What an install asks for: the accesses allowed and the flags for each. */
  datatype Prot = Prot(read: bool, write: bool, exec: bool, readFlags: Word, writeFlags: Word, codeFlags: Word)

  predicate FlagsOk(prot: Prot) {
    && prot.readFlags & FLAG_BITS == prot.readFlags && prot.writeFlags & FLAG_BITS == prot.writeFlags
    && prot.codeFlags & FLAG_BITS == prot.codeFlags
  }

  function Field(vaddr: Word, allowed: bool, flags: Word): Word {
    if allowed then vaddr | flags else EMPTY_FIELD
  }

  /** The entry translates exactly the accesses allowed, with their flags. */
  predicate Translates(e: Entry, vaddr: Word, prot: Prot) {
    && FieldIs(e.read, vaddr, prot.read, prot.readFlags) && FieldIs(e.write, vaddr, prot.write, prot.writeFlags)
    && FieldIs(e.code, vaddr, prot.exec, prot.codeFlags)
  }

  predicate FieldIs(f: Word, vaddr: Word, allowed: bool, flags: Word) {
    FieldMatches(f, vaddr) == allowed && (allowed ==> f & FLAG_BITS == flags)
  }

  lemma FieldOk(vaddr: Word, allowed: bool, flags: Word)
    requires IsPage(vaddr) && flags & FLAG_BITS == flags
    ensures FieldAt(Field(vaddr, allowed, flags), Index(vaddr))
    ensures FieldIs(Field(vaddr, allowed, flags), vaddr, allowed, flags)
  {
  }

  function NewEntry(vaddr: Word, prot: Prot): Entry {
    Entry(Field(vaddr, prot.read, prot.readFlags), Field(vaddr, prot.write, prot.writeFlags),
          Field(vaddr, prot.exec, prot.codeFlags))
  }

  lemma NewEntryOk(vaddr: Word, prot: Prot)
    requires IsPage(vaddr) && FlagsOk(prot)
    ensures EntryAt(NewEntry(vaddr, prot), Index(vaddr)) && Translates(NewEntry(vaddr, prot), vaddr, prot)
  {
    FieldOk(vaddr, prot.read, prot.readFlags);
    FieldOk(vaddr, prot.write, prot.writeFlags);
    FieldOk(vaddr, prot.exec, prot.codeFlags);
  }

  class Tlb {
    const modes: nat
    const main: array2<Entry>
    const victim: array2<Entry>
    var vtlbIndex: nat
    var flushAddr: Word
    var flushMask: Word
    ghost var large: set<Large>

    ghost predicate Valid()
      reads this, main, victim
    {
      && main != victim
      && main.Length0 == modes && main.Length1 == CPU_TLB_SIZE
      && victim.Length0 == modes && victim.Length1 == CPU_VTLB_SIZE
      && Region(flushAddr, flushMask, large) && Least(flushMask, large)
      && forall m, i :: 0 <= m < modes && 0 <= i < CPU_TLB_SIZE ==> EntryAt(main[m, i], i)
    }

    /** No entry of any mode and table translates `page`. */
    ghost predicate Gone(page: Word)
      requires Valid()
      reads this, main, victim
    {
      && (forall m, i :: 0 <= m < modes && 0 <= i < CPU_TLB_SIZE ==> !Matches(main[m, i], page))
      && (forall m, i :: 0 <= m < modes && 0 <= i < CPU_VTLB_SIZE ==> !Matches(victim[m, i], page))
    }

    ghost predicate AllEmpty()
      requires Valid()
      reads this, main, victim
    {
      && (forall m, i :: 0 <= m < modes && 0 <= i < CPU_TLB_SIZE ==> main[m, i] == EMPTY)
      && (forall m, i :: 0 <= m < modes && 0 <= i < CPU_VTLB_SIZE ==> victim[m, i] == EMPTY)
    }

    constructor (modes: nat)
      ensures Valid() && AllEmpty() && large == {}
      ensures this.modes == modes && fresh(main) && fresh(victim)
    {
      this.modes := modes;
      main := new Entry[modes, CPU_TLB_SIZE]((m, i) => EMPTY);
      victim := new Entry[modes, CPU_VTLB_SIZE]((m, i) => EMPTY);
      vtlbIndex, flushAddr, flushMask, large := 0, EMPTY_FIELD, 0, {};
    }

    /** tlb_flush */
    method Flush()
      requires Valid()
      modifies this, main, victim
      ensures Valid() && AllEmpty() && large == {} && vtlbIndex == 0
    {
      forall m, i | 0 <= m < modes && 0 <= i < CPU_TLB_SIZE {
        main[m, i] := EMPTY;
      }
      forall m, i | 0 <= m < modes && 0 <= i < CPU_VTLB_SIZE {
        victim[m, i] := EMPTY;
      }
      vtlbIndex, flushAddr, flushMask, large := 0, EMPTY_FIELD, 0, {};
    }

    /** The entry in place is moved to the victim table and replaced. */
    method Refill(mode: nat, index: nat, vidx: nat, e: Entry)
      requires Valid() && mode < modes && index < CPU_TLB_SIZE && vidx < CPU_VTLB_SIZE && EntryAt(e, index)
      modifies main, victim
      ensures Valid() && main[mode, index] == e && victim[mode, vidx] == old(main[mode, index])
      ensures forall m, i :: 0 <= m < modes && 0 <= i < CPU_TLB_SIZE && (m, i) != (mode, index) ==>
                main[m, i] == old(main[m, i])
      ensures forall m, i :: 0 <= m < modes && 0 <= i < CPU_VTLB_SIZE && (m, i) != (mode, vidx) ==>
                victim[m, i] == old(victim[m, i])
    {
      victim[mode, vidx] := main[mode, index];
      main[mode, index] := e;
    }

    /** The bookkeeping of an install. */
    method Record(vaddr: Word, size: Word) returns (vidx: nat)
      requires Valid() && PowerOfTwo(size) && size >= 0x1000
      modifies this
      ensures Valid() && vidx == old(vtlbIndex) % CPU_VTLB_SIZE && vtlbIndex == old(vtlbIndex) + 1
      ensures large == if size == 0x1000 then old(large) else old(large) + {Large(vaddr, size)}
    {
      vidx := vtlbIndex % CPU_VTLB_SIZE;
      vtlbIndex := vtlbIndex + 1;
      if size != 0x1000 {
        flushAddr, flushMask := AddLargePage(flushAddr, flushMask, vaddr, size, large);
        large := large + {Large(vaddr, size)};
      }
    }

    /** tlb_set_page_with_attrs: the page is translated, the entry it replaces survives in
        the victim table, and a large page is remembered. */
    method SetPage(vaddr: Word, mode: nat, size: Word, prot: Prot)
      requires Valid() && mode < modes && IsPage(vaddr) && PowerOfTwo(size) && size >= 0x1000 && FlagsOk(prot)
      modifies this, main, victim
      ensures Valid()
      ensures large == if size == 0x1000 then old(large) else old(large) + {Large(vaddr, size)}
      ensures Translates(main[mode, Index(vaddr)], vaddr, prot)
      ensures vtlbIndex == old(vtlbIndex) + 1
      ensures victim[mode, old(vtlbIndex) % CPU_VTLB_SIZE] == old(main[mode, Index(vaddr)])
      ensures forall m, i :: 0 <= m < modes && 0 <= i < CPU_TLB_SIZE && (m, i) != (mode, Index(vaddr)) ==>
                main[m, i] == old(main[m, i])
      ensures forall m, i ::
                0 <= m < modes && 0 <= i < CPU_VTLB_SIZE && (m, i) != (mode, old(vtlbIndex) % CPU_VTLB_SIZE) ==>
                victim[m, i] == old(victim[m, i])
    {
      var vidx := Record(vaddr, size);
      NewEntryOk(vaddr, prot);
      Refill(mode, Index(vaddr), vidx, NewEntry(vaddr, prot));
    }

    /** tlb_flush_entry */
    function Flushed(e: Entry, page: Word): (r: Entry)
      ensures r == if FieldMatches(e.read, page) || FieldMatches(e.write, page) || FieldMatches(e.code, page)
                   then EMPTY else e
      ensures IsPage(page) ==> !Matches(r, page)
    {
      if Matches(e, page) then
        assert IsPage(page) ==> !Matches(EMPTY, page) by {
          if IsPage(page) {
            EmptyNoMatch(page);
          }
        }
        EMPTY
      else e
    }

    /** Every entry is as before, unless it translated `page`. */
    twostate predicate OnlyFlushed(page: Word)
      requires Valid() && old(Valid())
      reads this, main, victim
    {
      && (forall m, i :: 0 <= m < modes && 0 <= i < CPU_TLB_SIZE ==> main[m, i] == old(Flushed(main[m, i], page)))
      && (forall m, i :: 0 <= m < modes && 0 <= i < CPU_VTLB_SIZE ==> victim[m, i] == old(Flushed(victim[m, i], page)))
    }

    method FlushMain(page: Word)
      requires Valid() && IsPage(page)
      modifies main
      ensures Valid()
      ensures forall m, i :: 0 <= m < modes && 0 <= i < CPU_TLB_SIZE ==> main[m, i] == old(Flushed(main[m, i], page))
    {
      var i := Index(page);
      for mode := 0 to modes
        invariant forall m, k :: 0 <= m < modes && 0 <= k < CPU_TLB_SIZE ==>
                    main[m, k] == if m < mode && k == i then old(Flushed(main[m, k], page)) else old(main[m, k])
      {
        main[mode, i] := Flushed(main[mode, i], page);
      }
      forall m, k | 0 <= m < modes && 0 <= k < CPU_TLB_SIZE
        ensures main[m, k] == old(Flushed(main[m, k], page)) && EntryAt(main[m, k], k)
      {
        if k != i && old(Matches(main[m, k], page)) {
          MatchesAt(old(main[m, k]), k, page);
        }
      }
    }

    method FlushVictim(page: Word)
      requires Valid() && IsPage(page)
      modifies victim
      ensures Valid()
      ensures forall m, i :: 0 <= m < modes && 0 <= i < CPU_VTLB_SIZE ==>
                victim[m, i] == old(Flushed(victim[m, i], page))
    {
      for mode := 0 to modes
        invariant forall m, k :: 0 <= m < modes && 0 <= k < CPU_VTLB_SIZE ==>
                    victim[m, k] == if m < mode then old(Flushed(victim[m, k], page)) else old(victim[m, k])
      {
        for k := 0 to CPU_VTLB_SIZE
          invariant forall m, j :: 0 <= m < modes && 0 <= j < CPU_VTLB_SIZE ==>
                      victim[m, j] == if m < mode || (m == mode && j < k) then old(Flushed(victim[m, j], page))
                                      else old(victim[m, j])
        {
          victim[mode, k] := Flushed(victim[mode, k], page);
        }
      }
    }

    /** tlb_flush_page: no entry of any mode and table translates the page any more, and if a
        large page since the last full flush contains it, no entry is left at all. */
    method FlushPage(addr: Word)
      requires Valid()
      modifies this, main, victim
      ensures Valid() && Gone(PageOf(addr))
      ensures HitsLarge(old(large), addr) ==> AllEmpty() && large == {}
      ensures old(InRegion(flushAddr, flushMask, addr)) ==> old(large) != {} && InEveryBlock(old(large), addr)
      ensures if old(InRegion(flushAddr, flushMask, addr)) then AllEmpty() && large == {}
              else large == old(large) && OnlyFlushed(PageOf(addr))
    {
      if InRegion(flushAddr, flushMask, addr) {
        RegionIsLeast(flushAddr, flushMask, large, addr);
        FlushAll(PageOf(addr));
      } else {
        OutsideRegion(flushAddr, flushMask, large, addr);
        FlushTables(PageOf(addr));
      }
    }

    method FlushAll(ghost page: Word)
      requires Valid() && IsPage(page)
      modifies this, main, victim
      ensures Valid() && AllEmpty() && large == {} && Gone(page)
    {
      Flush();
      EmptyNoMatch(page);
    }

    method FlushTables(page: Word)
      requires Valid() && IsPage(page)
      modifies main, victim
      ensures Valid() && Gone(page) && OnlyFlushed(page)
    {
      FlushMain(page);
      FlushVictim(page);
    }
  }

  /** The address lies in every block that holds all the large pages. */
  ghost predicate InEveryBlock(large: set<Large>, a: Word) {
    forall m, l :: OneBlock(m, large) && l in large ==> Agree(a, l.vaddr, m)
  }

  lemma RegionIsLeast(flushAddr: Word, flushMask: Word, large: set<Large>, a: Word)
    requires Region(flushAddr, flushMask, large) && Least(flushMask, large) && InRegion(flushAddr, flushMask, a)
    ensures large != {} && InEveryBlock(large, a)
  {
    forall m, l | OneBlock(m, large) && l in large ensures Agree(a, l.vaddr, m) {
      RegionInBlock(flushAddr, flushMask, large, a, m, l);
    }
  }

  lemma OutsideRegion(flushAddr: Word, flushMask: Word, large: set<Large>, addr: Word)
    requires Region(flushAddr, flushMask, large) && !InRegion(flushAddr, flushMask, addr)
    ensures !HitsLarge(large, addr)
  {
    forall l | l in large ensures !InLarge(addr, l) {
      if InLarge(addr, l) {
        ContainsAddress(flushAddr, flushMask, l, addr);
      }
    }
  }
}
