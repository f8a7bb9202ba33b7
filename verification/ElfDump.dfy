/** The ELF vmcore: one function computes file offsets for the program headers, others
    write the memory; the two agree (dump.c). */
module ElfDump {
  import opened Basics
  import opened GuestPages
  import opened DumpBytes

  const UINT16_MAX: nat := 0xffff
  const UINT32_MAX: nat := 0xffff_ffff
  const PT_LOAD: nat := 1
  const UINT64_MAX: nat := 0xffff_ffff_ffff_ffff

  /** The dumped window of guest-physical memory. */
  datatype Filter = Filter(begin: nat, length: nat)

  datatype Mapping = Mapping(physAddr: nat, virtAddr: nat, length: nat)

  predicate BlockSane(b: Block) {
    b.start <= b.end && |b.host| == b.end - b.start
  }

  ghost predicate Sane(blocks: seq<Block>) {
    forall i :: 0 <= i < |blocks| ==> BlockSane(blocks[i])
  }

  predicate OutOfRange(filter: Option<Filter>, b: Block) {
    filter.Some? && (b.start >= filter.value.begin + filter.value.length || b.end <= filter.value.begin)
  }

  /** The addresses of a block that are dumped. */
  ghost function Lo(filter: Option<Filter>, b: Block): nat {
    if filter.Some? && b.start < filter.value.begin then filter.value.begin else b.start
  }

  ghost function Hi(filter: Option<Filter>, b: Block): nat {
    if filter.Some? && filter.value.begin + filter.value.length < b.end then filter.value.begin + filter.value.length
    else b.end
  }

  ghost predicate Covers(filter: Option<Filter>, b: Block, addr: nat) {
    !OutOfRange(filter, b) && Lo(filter, b) <= addr < Hi(filter, b)
  }

  /** An address is dumped if and only if it is in the block and in the window, and a block is left out
      if and only if none of its addresses is. */
  lemma CoversMeans(filter: Option<Filter>, b: Block, addr: nat)
    ensures var inWindow := filter.None? || filter.value.begin <= addr < filter.value.begin + filter.value.length;
            Covers(filter, b, addr) <==> b.start <= addr < b.end && inWindow
    ensures b.start < b.end && (filter.None? || filter.value.length > 0) ==>
              (OutOfRange(filter, b) <==> forall a :: !Covers(filter, b, a))
  {
    assert !OutOfRange(filter, b) && Lo(filter, b) < Hi(filter, b) ==> Covers(filter, b, Lo(filter, b));
  }

  /** The dump has the guest address `addr`. */
  ghost predicate Covered(blocks: seq<Block>, filter: Option<Filter>, addr: nat) {
    exists i :: 0 <= i < |blocks| && Covers(filter, blocks[i], addr)
  }

  /** The bytes of a block that are dumped. */
  ghost function Dumped(filter: Option<Filter>, b: Block): seq<byte>
    requires BlockSane(b)
  {
    if OutOfRange(filter, b) then [] else b.host[Lo(filter, b) - b.start..Hi(filter, b) - b.start]
  }

  ghost function DumpedSize(filter: Option<Filter>, b: Block): nat {
    if OutOfRange(filter, b) || !BlockSane(b) then 0 else Hi(filter, b) - Lo(filter, b)
  }

  /** How many bytes the first `n` blocks put into the file. */
  ghost function SizeBefore(blocks: seq<Block>, filter: Option<Filter>, n: nat): nat
    requires n <= |blocks|
  {
    if n == 0 then 0 else SizeBefore(blocks, filter, n - 1) + DumpedSize(filter, blocks[n - 1])
  }

  ghost predicate PlacedIn(blocks: seq<Block>, filter: Option<Filter>, i: nat, addr: nat, at: nat) {
    && i < |blocks| && Covers(filter, blocks[i], addr)
    && at == SizeBefore(blocks, filter, i) + (addr - Lo(filter, blocks[i]))
  }

  /** The byte at guest address `addr` is byte `at` of the dumped memory. */
  ghost predicate Placed(blocks: seq<Block>, filter: Option<Filter>, addr: nat, at: nat) {
    exists i :: PlacedIn(blocks, filter, i, addr, at)
  }

  /** The dumped bytes of every block. */
  ghost function Parts(blocks: seq<Block>, filter: Option<Filter>): (parts: seq<seq<byte>>)
    requires Sane(blocks)
    ensures |parts| == |blocks| && forall i :: 0 <= i < |parts| ==> parts[i] == Dumped(filter, blocks[i])
  {
    seq(|blocks|, i requires 0 <= i < |blocks| => Dumped(filter, blocks[i]))
  }

  /** The first `n` parts, one after the other. */
  ghost function Concat(parts: seq<seq<byte>>, n: nat): seq<byte>
    requires n <= |parts|
  {
    if n == 0 then [] else Concat(parts, n - 1) + parts[n - 1]
  }

  /** The memory part of the file. */
  ghost function Memory(blocks: seq<Block>, filter: Option<Filter>): seq<byte>
    requires Sane(blocks)
  {
    Concat(Parts(blocks, filter), |Parts(blocks, filter)|)
  }

  lemma {:induction false} ConcatSplit(parts: seq<seq<byte>>, i: nat, n: nat) returns (after: seq<byte>)
    requires i < n <= |parts|
    ensures Concat(parts, n) == Concat(parts, i) + parts[i] + after
  {
    if n == i + 1 {
      after := [];
      assert Concat(parts, i) + parts[i] + [] == Concat(parts, i) + parts[i];
    } else {
      var rest := ConcatSplit(parts, i, n - 1);
      after := rest + parts[n - 1];
      assert Concat(parts, i) + parts[i] + rest + parts[n - 1] == Concat(parts, i) + parts[i] + after;
    }
  }

  /** From `at` on, `file` holds `filesz` guest bytes of the block that covers the mapping's
      address, up to the end of the mapping or of the dumped part of the block. */
  ghost predicate ShowsIn(b: Block, filter: Option<Filter>, file: seq<byte>, m: Mapping, at: nat, filesz: nat) {
    && BlockSane(b) && Covers(filter, b, m.physAddr)
    && filesz == Clamp(b, filter, m)
    && at + filesz <= |file|
    && file[at..at + filesz] == b.host[m.physAddr - b.start..m.physAddr - b.start + filesz]
  }

  ghost predicate Shows(blocks: seq<Block>, filter: Option<Filter>, file: seq<byte>, m: Mapping, at: nat, filesz: nat) {
    exists i :: 0 <= i < |blocks| && ShowsIn(blocks[i], filter, file, m, at, filesz)
  }

  ghost function Clamp(b: Block, filter: Option<Filter>, m: Mapping): nat
    requires Covers(filter, b, m.physAddr)
  {
    if m.physAddr + m.length <= Hi(filter, b) then m.length else Hi(filter, b) - m.physAddr
  }

  /** The size of a mapping goes as far as its addresses are dumped. */
  lemma ClampMeans(b: Block, filter: Option<Filter>, m: Mapping, n: nat)
    requires Covers(filter, b, m.physAddr) && n == Clamp(b, filter, m)
    ensures n <= m.length && forall a :: m.physAddr <= a < m.physAddr + n ==> Covers(filter, b, a)
    ensures n < m.length ==> !Covers(filter, b, m.physAddr + n)
  {
  }

  lemma SubSlice(before: seq<byte>, part: seq<byte>, after: seq<byte>, host: seq<byte>, a: nat, b: nat, c: nat, n: nat)
    requires b <= |host| && a <= c && c + n <= b && part == host[a..b]
    ensures (before + part + after)[|before| + (c - a)..|before| + (c - a) + n] == host[c..c + n]
  {
    var d := c - a;
    assert (before + part + after)[|before| + d..|before| + d + n] == part[d..d + n];
    var x, y := part[d..d + n], host[c..c + n];
    forall k | 0 <= k < n ensures x[k] == y[k] {
      assert part[d + k] == host[c + k];
    }
    assert x == y;
  }

  lemma BlockShown(b: Block, filter: Option<Filter>, before: seq<byte>, part: seq<byte>, after: seq<byte>, m: Mapping,
                   at: nat, filesz: nat)
    requires BlockSane(b) && Covers(filter, b, m.physAddr) && part == Dumped(filter, b)
    requires at == |before| + (m.physAddr - Lo(filter, b)) && filesz == Clamp(b, filter, m)
    ensures ShowsIn(b, filter, before + part + after, m, at, filesz)
  {
    SubSlice(before, part, after, b.host, Lo(filter, b) - b.start, Hi(filter, b) - b.start, m.physAddr - b.start,
             filesz);
  }

  /** The dumped part of a block, as get_offset_range computes it. */
  method Window(filter: Option<Filter>, b: Block) returns (start: nat, size: nat)
    requires BlockSane(b) && !OutOfRange(filter, b)
    ensures start == Lo(filter, b) && start + size == Hi(filter, b) && size == DumpedSize(filter, b)
  {
    start, size := b.start, b.end - b.start;
    if filter.Some? {
      start := if filter.value.begin <= b.start then b.start else filter.value.begin;
      size := b.end - start;
      if filter.value.begin + filter.value.length < b.end {
        size := size - (b.end - (filter.value.begin + filter.value.length));
      }
    }
  }

  lemma PartSizes(blocks: seq<Block>, filter: Option<Filter>)
    requires Sane(blocks)
    ensures forall i :: 0 <= i < |blocks| ==> |Parts(blocks, filter)[i]| == DumpedSize(filter, blocks[i])
  {
  }

  lemma {:induction false} ConcatSize(blocks: seq<Block>, filter: Option<Filter>, parts: seq<seq<byte>>, n: nat)
    requires |parts| == |blocks| && n <= |parts|
    requires forall i :: 0 <= i < |blocks| ==> |parts[i]| == DumpedSize(filter, blocks[i])
    ensures |Concat(parts, n)| == SizeBefore(blocks, filter, n)
  {
    if n > 0 {
      ConcatSize(blocks, filter, parts, n - 1);
    }
  }

  /** The loop of get_offset_range: the block whose dumped part covers `addr`, and the file
      offset of that part. */
  method FindBlock(blocks: seq<Block>, filter: Option<Filter>, memoryOffset: nat, addr: nat)
    returns (i: nat, at: nat, start: nat, size: nat)
    requires Sane(blocks)
    ensures i <= |blocks| && forall j :: 0 <= j < i ==> !Covers(filter, blocks[j], addr)
    ensures i < |blocks| ==> Covers(filter, blocks[i], addr) && at == memoryOffset + SizeBefore(blocks, filter, i)
    ensures i < |blocks| ==> start == Lo(filter, blocks[i]) && start + size == Hi(filter, blocks[i])
  {
    i, at, start, size := 0, memoryOffset, 0, 0;
    while i < |blocks|
      invariant i <= |blocks| && at == memoryOffset + SizeBefore(blocks, filter, i)
      invariant forall j :: 0 <= j < i ==> !Covers(filter, blocks[j], addr)
    {
      if !OutOfRange(filter, blocks[i]) {
        start, size := Window(filter, blocks[i]);
        if start <= addr < start + size {
          return;
        }
        at := at + size;
      }
      i := i + 1;
    }
  }

  lemma Found(blocks: seq<Block>, filter: Option<Filter>, parts: seq<seq<byte>>, i: nat, m: Mapping, at: nat,
              filesz: nat)
    requires i < |blocks| && BlockSane(blocks[i]) && Covers(filter, blocks[i], m.physAddr)
    requires |parts| == |blocks| && parts[i] == Dumped(filter, blocks[i])
    requires |Concat(parts, i)| == SizeBefore(blocks, filter, i)
    requires PlacedIn(blocks, filter, i, m.physAddr, at) && filesz == Clamp(blocks[i], filter, m)
    ensures ShowsIn(blocks[i], filter, Concat(parts, |parts|), m, at, filesz)
  {
    var after := ConcatSplit(parts, i, |parts|);
    BlockShown(blocks[i], filter, Concat(parts, i), parts[i], after, m, at, filesz);
  }

  /** The first block from `i` on whose dumped part covers `addr`, or |blocks|. */
  ghost function FirstFrom(blocks: seq<Block>, filter: Option<Filter>, addr: nat, i: nat): (k: nat)
    requires i <= |blocks|
    ensures i <= k <= |blocks| && (k < |blocks| ==> Covers(filter, blocks[k], addr))
    ensures forall j :: i <= j < k ==> !Covers(filter, blocks[j], addr)
    decreases |blocks| - i
  {
    if i == |blocks| || Covers(filter, blocks[i], addr) then i else FirstFrom(blocks, filter, addr, i + 1)
  }

  ghost function First(blocks: seq<Block>, filter: Option<Filter>, addr: nat): (k: nat)
    ensures k <= |blocks| && (k < |blocks| ==> Covers(filter, blocks[k], addr))
    ensures forall j :: 0 <= j < k ==> !Covers(filter, blocks[j], addr)
  {
    FirstFrom(blocks, filter, addr, 0)
  }

  /** A PT_LOAD header. */
  datatype Load = Load(m: Mapping, offset: Option<nat>, filesz: nat)

  /** The header of a mapping, the memory part being at `base`. */
  ghost function LoadFor(blocks: seq<Block>, filter: Option<Filter>, base: nat, m: Mapping): Load {
    var k := First(blocks, filter, m.physAddr);
    if k == |blocks| then Load(m, None, 0)
    else Load(m, Some(base + SizeBefore(blocks, filter, k) + (m.physAddr - Lo(filter, blocks[k]))),
              Clamp(blocks[k], filter, m))
  }

  /** The computation of get_offset_range, with None for offset -1. */
  method ComputeRange(blocks: seq<Block>, filter: Option<Filter>, memoryOffset: nat, m: Mapping)
    returns (offset: Option<nat>, filesz: nat, ghost i: nat)
    requires Sane(blocks)
    ensures filesz <= m.length && (offset.None? ==> filesz == 0)
    ensures offset.Some? <==> Covered(blocks, filter, m.physAddr)
    ensures offset.Some? ==>
              && offset.value >= memoryOffset && PlacedIn(blocks, filter, i, m.physAddr, offset.value - memoryOffset)
              && filesz == Clamp(blocks[i], filter, m)
    ensures Load(m, offset, filesz) == LoadFor(blocks, filter, memoryOffset, m)
  {
    i := 0;
    if filter.Some? {
      if m.physAddr < filter.value.begin || m.physAddr >= filter.value.begin + filter.value.length {
        return None, 0, 0;
      }
    }
    var n, at, start, size := FindBlock(blocks, filter, memoryOffset, m.physAddr);
    if n == |blocks| {
      return None, 0, 0;
    }
    filesz := if m.physAddr + m.length <= start + size then m.length else size - (m.physAddr - start);
    return Some(m.physAddr - start + at), filesz, n;
  }

  /** Offset and size of a mapping are right for a memory part `all` at `base`. */
  ghost predicate RangeRight(blocks: seq<Block>, filter: Option<Filter>, base: nat, all: seq<byte>, m: Mapping,
                             offset: Option<nat>, filesz: nat)
  {
    && filesz <= m.length
    && (offset.None? ==> filesz == 0)
    && (offset.Some? <==> Covered(blocks, filter, m.physAddr))
    && (offset.Some? ==> offset.value >= base && Shows(blocks, filter, all, m, offset.value - base, filesz))
  }

  /** The offset of a mapping is the place of its first byte, the memory part being at `base`. */
  ghost predicate RangePlaced(blocks: seq<Block>, filter: Option<Filter>, base: nat, m: Mapping, offset: Option<nat>) {
    offset.Some? ==> offset.value >= base && Placed(blocks, filter, m.physAddr, offset.value - base)
  }

  /** get_offset_range: the offset is right if the memory part `all` starts at memory_offset. */
  method GetOffsetRange(blocks: seq<Block>, filter: Option<Filter>, memoryOffset: nat, m: Mapping,
                        ghost parts: seq<seq<byte>>, ghost all: seq<byte>)
    returns (offset: Option<nat>, filesz: nat)
    requires Sane(blocks) && parts == Parts(blocks, filter) && all == Concat(parts, |parts|)
    ensures RangeRight(blocks, filter, memoryOffset, all, m, offset, filesz)
    ensures RangePlaced(blocks, filter, memoryOffset, m, offset)
    ensures Load(m, offset, filesz) == LoadFor(blocks, filter, memoryOffset, m)
  {
    ghost var i;
    offset, filesz, i := ComputeRange(blocks, filter, memoryOffset, m);
    LoadForRight(blocks, filter, memoryOffset, m, parts, Load(m, offset, filesz));
  }

  lemma LoadMeans(blocks: seq<Block>, filter: Option<Filter>, base: nat, m: Mapping)
    ensures var k, l := First(blocks, filter, m.physAddr), LoadFor(blocks, filter, base, m);
            && l.m == m
            && (k == |blocks| ==> l.offset.None? && l.filesz == 0)
            && (k < |blocks| ==>
                  && l.offset.Some? && l.offset.value >= base && l.filesz == Clamp(blocks[k], filter, m)
                  && PlacedIn(blocks, filter, k, m.physAddr, l.offset.value - base))
  {
  }

  lemma LoadForRight(blocks: seq<Block>, filter: Option<Filter>, base: nat, m: Mapping, parts: seq<seq<byte>>, l: Load)
    requires Sane(blocks) && parts == Parts(blocks, filter) && l == LoadFor(blocks, filter, base, m)
    ensures RangeRight(blocks, filter, base, Concat(parts, |parts|), m, l.offset, l.filesz)
    ensures RangePlaced(blocks, filter, base, m, l.offset)
  {
    var k := First(blocks, filter, m.physAddr);
    LoadMeans(blocks, filter, base, m);
    if k < |blocks| {
      RangeShown(blocks, filter, parts, k, m, l.offset.value - base, l.filesz);
    }
  }

  lemma RangeShown(blocks: seq<Block>, filter: Option<Filter>, parts: seq<seq<byte>>, i: nat, m: Mapping, at: nat,
                   filesz: nat)
    requires Sane(blocks) && parts == Parts(blocks, filter)
    requires PlacedIn(blocks, filter, i, m.physAddr, at) && filesz == Clamp(blocks[i], filter, m)
    ensures ShowsIn(blocks[i], filter, Concat(parts, |parts|), m, at, filesz)
    ensures Placed(blocks, filter, m.physAddr, at)
  {
    PartSizes(blocks, filter);
    ConcatSize(blocks, filter, parts, i);
    Found(blocks, filter, parts, i, m, at, filesz);
  }

  // Layout

  /** What the dump covers and the class and byte order of its headers; `ehdr`, `noteHeader`
      and `section` are the ELF header, the PT_NOTE header and the section header as bytes. */
  datatype Plan = Plan(class64: bool, big: bool, blocks: seq<Block>, filter: Option<Filter>,
                       list: seq<Mapping>, ehdr: seq<byte>, noteHeader: seq<byte>, section: seq<byte>, notes: seq<byte>)

  predicate HaveSection(p: Plan) {
    |p.list| >= UINT16_MAX - 2
  }

  /** The number of program headers: phdr_num, or sh_info if there is a section. */
  function HeaderCount(p: Plan): nat {
    if !HaveSection(p) then 1 + |p.list|
    else if |p.list| <= UINT32_MAX - 1 then 1 + |p.list| else UINT32_MAX
  }

  /** Without a section header e_phnum holds the count, below PN_XNUM; with one, the count is in
      sh_info, cut at 32 bits. */
  lemma CountFits(p: Plan)
    ensures !HaveSection(p) ==> HeaderCount(p) == 1 + |p.list| < UINT16_MAX
    ensures HaveSection(p) ==> HeaderCount(p) <= UINT32_MAX
    ensures |p.list| < UINT32_MAX ==> HeaderCount(p) == 1 + |p.list|
    ensures 1 + |p.list| >= UINT16_MAX ==> HaveSection(p)
  {
  }

  function EhdrSize(class64: bool): nat { if class64 then 64 else 52 }
  function PhdrSize(class64: bool): nat { if class64 then 56 else 32 }
  function PhdrsSize(class64: bool, n: nat): nat { if class64 then 56 * n else 32 * n }
  function ShdrSize(class64: bool): nat { if class64 then 64 else 40 }

  /** The block ends fit in hwaddr, and in 32 bits if the class is ELF32. */
  ghost predicate ClassOk(class64: bool, blocks: seq<Block>) {
    forall i :: 0 <= i < |blocks| ==> blocks[i].end <= if class64 then UINT64_MAX else UINT32_MAX
  }

  /** cpu_get_dump_info: the class, `lma` being long mode. */
  method DumpClass(lma: bool, blocks: seq<Block>) returns (class64: bool)
    requires ClassOk(true, blocks)
    ensures class64 <==> lma || exists i :: 0 <= i < |blocks| && blocks[i].end > UINT32_MAX
    ensures ClassOk(class64, blocks)
  {
    class64 := lma;
    if !lma {
      for i := 0 to |blocks|
        invariant !class64 && forall j :: 0 <= j < i ==> blocks[j].end <= UINT32_MAX
      {
        if blocks[i].end > UINT32_MAX {
          class64 := true;
          break;
        }
      }
    }
  }

  ghost predicate PlanOk(p: Plan) {
    && Sane(p.blocks) && ClassOk(p.class64, p.blocks) && p.blocks != [] && |p.list| <= UINT32_MAX
    && |p.ehdr| == EhdrSize(p.class64) && |p.noteHeader| == PhdrSize(p.class64) && |p.section| == ShdrSize(p.class64)
  }

  /** memory_offset, as dump_init computes it. */
  function MemoryOffset(p: Plan): nat {
    EhdrSize(p.class64) + PhdrsSize(p.class64, HeaderCount(p))
    + (if HaveSection(p) then ShdrSize(p.class64) else 0) + |p.notes|
  }

  function OffsetField(l: Load): nat {
    if l.offset.None? then 0xffff_ffff_ffff_ffff else l.offset.value
  }

  function WordSize(class64: bool): nat { if class64 then 8 else 4 }

  function Word(class64: bool, big: bool, v: nat): (s: seq<byte>)
    ensures |s| == WordSize(class64)
  {
    Encode(big, WordSize(class64), v)
  }

  /** p_type and, in ELF64, p_flags. */
  function HeaderTop(class64: bool, big: bool): (s: seq<byte>)
    ensures |s| == WordSize(class64)
  {
    if class64 then Encode(big, 4, PT_LOAD) + Encode(big, 4, 0) else Encode(big, 4, PT_LOAD)
  }

  /** p_memsz, in ELF32 p_flags, and p_align. */
  function HeaderEnd(class64: bool, big: bool, l: Load): (s: seq<byte>)
    ensures |s| == if class64 then 16 else 12
  {
    Word(class64, big, l.m.length) + if class64 then Encode(big, 8, 0) else Encode(big, 4, 0) + Encode(big, 4, 0)
  }

  /** write_elf64_load and write_elf32_load. */
  function LoadHeader(class64: bool, big: bool, l: Load): (s: seq<byte>)
    ensures |s| == PhdrSize(class64)
  {
    HeaderTop(class64, big) + Word(class64, big, OffsetField(l))
    + (Word(class64, big, l.m.virtAddr) + Word(class64, big, l.m.physAddr))
    + Word(class64, big, l.filesz) + HeaderEnd(class64, big, l)
  }

  /** How this dump writes a PT_LOAD header. */
  function Header(p: Plan): (header: Load -> seq<byte>)
    ensures forall l :: |header(l)| == PhdrSize(p.class64)
  {
    l => LoadHeader(p.class64, p.big, l)
  }

  /** The bytes of the PT_LOAD headers. */
  function LoadBytes(header: Load -> seq<byte>, loads: seq<Load>): seq<byte> {
    if loads == [] then [] else LoadBytes(header, loads[..|loads| - 1]) + header(loads[|loads| - 1])
  }

  lemma {:induction false} LoadBytesLength(header: Load -> seq<byte>, class64: bool, loads: seq<Load>)
    requires forall l :: |header(l)| == PhdrSize(class64)
    ensures |LoadBytes(header, loads)| == PhdrsSize(class64, |loads|)
  {
    if loads != [] {
      LoadBytesLength(header, class64, loads[..|loads| - 1]);
    }
  }

  /** A program header is right for a memory part `all` at `base`. */
  ghost predicate LoadRight(p: Plan, base: nat, all: seq<byte>, l: Load) {
    RangeRight(p.blocks, p.filter, base, all, l.m, l.offset, l.filesz)
  }

  ghost predicate LoadPlaced(p: Plan, base: nat, l: Load) {
    RangePlaced(p.blocks, p.filter, base, l.m, l.offset)
  }

  /** Behind `f` the file holds the bytes of `host` from `from` to `to`. */
  ghost predicate Copied(f: seq<byte>, file: seq<byte>, host: seq<byte>, from: nat, to: nat) {
    from <= to <= |host| && file == f + host[from..to]
  }

  /** The file being written, and where dump_iterate is. */
  class DumpState {
    var file: seq<byte>
    var attempts: nat
    var nextBlock: nat
    var start: nat
    const accepts: nat -> bool
    const p: Plan

    constructor (accepts: nat -> bool, p: Plan)
      ensures this.accepts == accepts && this.p == p && file == [] && attempts == 0
    {
      this.accepts := accepts;
      this.p := p;
      file, attempts, nextBlock, start := [], 0, 0, 0;
    }

    /** fd_write_vmcore */
    method Write(buf: seq<byte>) returns (ok: bool)
      modifies `file, `attempts
      ensures file == if ok then old(file) + buf else old(file)
      ensures ok == accepts(old(attempts)) && attempts == old(attempts) + 1
    {
      ok := accepts(attempts);
      attempts := attempts + 1;
      if ok {
        file := file + buf;
      }
    }

    /** write_memory: one page per write, then the rest. */
    method WriteMemory(b: Block, from: nat, size: nat) returns (ok: bool)
      requires from + size <= |b.host|
      modifies `file, `attempts
      ensures ok ==> file == old(file) + b.host[from..from + size]
      ensures Always(accepts) ==> ok
    {
      ok := true;
      assert file == file + b.host[from..from];
      for i := 0 to size / PAGE
        invariant Copied(old(file), file, b.host, from, from + i * PAGE)
      {
        ok := WriteSome(b, from, from + i * PAGE, PAGE, old(file));
        if !ok {
          return;
        }
      }
      if size % PAGE != 0 {
        ok := WriteSome(b, from, from + size / PAGE * PAGE, size % PAGE, old(file));
      }
    }

    /** The next `n` bytes of a block, from `at` on. */
    method WriteSome(b: Block, ghost from: nat, at: nat, n: nat, ghost f: seq<byte>) returns (ok: bool)
      requires at + n <= |b.host| && Copied(f, file, b.host, from, at)
      modifies `file, `attempts
      ensures ok ==> Copied(f, file, b.host, from, at + n)
      ensures Always(accepts) ==> ok
    {
      ok := Write(b.host[at..at + n]);
      SliceJoin(b.host, from, at, at + n);
    }

    /** Block `n` is the next to write, from `start` on; the skipped blocks hold nothing. */
    ghost predicate At(n: nat)
      reads `nextBlock, `start
    {
      && n == nextBlock < |p.blocks| && BlockSane(p.blocks[n]) && !OutOfRange(p.filter, p.blocks[n])
      && start == Lo(p.filter, p.blocks[n]) - p.blocks[n].start
    }

    /** get_start_block */
    method GetStartBlock() returns (found: bool)
      requires Sane(p.blocks) && p.blocks != []
      modifies `nextBlock, `start
      ensures found ==> At(nextBlock) && forall j :: 0 <= j < nextBlock ==> OutOfRange(p.filter, p.blocks[j])
      ensures !found ==> forall j :: 0 <= j < |p.blocks| ==> OutOfRange(p.filter, p.blocks[j])
    {
      if p.filter.None? {
        nextBlock, start := 0, 0;
        return true;
      }
      for i := 0 to |p.blocks|
        invariant forall j :: 0 <= j < i ==> OutOfRange(p.filter, p.blocks[j])
      {
        if !OutOfRange(p.filter, p.blocks[i]) {
          nextBlock := i;
          start := if p.filter.value.begin > p.blocks[i].start then p.filter.value.begin - p.blocks[i].start else 0;
          return true;
        }
      }
      return false;
    }

    /** get_next_block */
    method GetNextBlock(block: nat) returns (more: bool)
      requires Sane(p.blocks) && block < |p.blocks|
      modifies `nextBlock, `start
      ensures more ==> block < nextBlock && At(nextBlock) &&
                       forall j :: block < j < nextBlock ==> OutOfRange(p.filter, p.blocks[j])
      ensures !more ==> forall j :: block < j < |p.blocks| ==> OutOfRange(p.filter, p.blocks[j])
    {
      var b := block;
      while true
        invariant block <= b < |p.blocks|
        invariant forall j :: block < j <= b ==> OutOfRange(p.filter, p.blocks[j])
        decreases |p.blocks| - b
      {
        b := b + 1;
        if b == |p.blocks| {
          return false;
        }
        start := 0;
        nextBlock := b;
        if p.filter.Some? {
          if OutOfRange(p.filter, p.blocks[b]) {
            continue;
          }
          if p.filter.value.begin > p.blocks[b].start {
            start := p.filter.value.begin - p.blocks[b].start;
          }
        }
        return true;
      }
    }

    /** dump_iterate: writes the memory part. */
    method DumpIterate(ghost parts: seq<seq<byte>>) returns (ok: bool)
      requires Sane(p.blocks) && IsParts(parts, p.blocks, p.filter)
      requires At(nextBlock) && forall j :: 0 <= j < nextBlock ==> OutOfRange(p.filter, p.blocks[j])
      modifies this
      ensures ok ==> file == old(file) + Concat(parts, |parts|)
      ensures Always(accepts) ==> ok
    {
      ghost var n := nextBlock;
      FirstParts(p.blocks, p.filter, parts, n, file);
      var more := true;
      while more
        invariant n <= |parts| && Wrote(old(file), parts, n, file)
        invariant if more then At(n) else n == |parts|
        decreases |parts| - n, more
      {
        ok, more, n := IterateBlock(parts, old(file), n);
        if !ok {
          return;
        }
      }
      ok := true;
    }

    /** One turn of the loop of dump_iterate. */
    method IterateBlock(ghost parts: seq<seq<byte>>, ghost f: seq<byte>, ghost n: nat)
      returns (ok: bool, more: bool, ghost n': nat)
      requires Sane(p.blocks) && IsParts(parts, p.blocks, p.filter) && At(n) && Wrote(f, parts, n, file)
      modifies this
      ensures ok ==> n < n' <= |parts| && Wrote(f, parts, n', file) && if more then At(n') else n' == |parts|
      ensures Always(accepts) ==> ok
    {
      var block := nextBlock;
      more, n' := false, n;
      ok := WriteBlock(block, parts, f);
      if ok {
        more, n' := Advance(block, parts, f);
      }
    }

    method WriteBlock(block: nat, ghost parts: seq<seq<byte>>, ghost f: seq<byte>) returns (ok: bool)
      requires Sane(p.blocks) && IsParts(parts, p.blocks, p.filter) && At(block) && Wrote(f, parts, block, file)
      modifies `file, `attempts
      ensures ok ==> Wrote(f, parts, block + 1, file)
      ensures Always(accepts) ==> ok
    {
      ghost var before := file;
      ok := WritePart(block);
      if ok {
        PartWritten(parts, block, f, before, file);
      }
    }

    method WritePart(block: nat) returns (ok: bool)
      requires At(block)
      modifies `file, `attempts
      ensures ok ==> file == old(file) + Dumped(p.filter, p.blocks[block])
      ensures Always(accepts) ==> ok
    {
      var size := BlockSize();
      ok := WriteMemory(p.blocks[block], start, size);
    }

    method Advance(block: nat, ghost parts: seq<seq<byte>>, ghost f: seq<byte>) returns (more: bool, ghost n: nat)
      requires Sane(p.blocks) && IsParts(parts, p.blocks, p.filter)
      requires block < |parts| && Wrote(f, parts, block + 1, file)
      modifies `nextBlock, `start
      ensures block < n <= |parts| && if more then At(n) else n == |parts|
      ensures Wrote(f, parts, n, file)
    {
      more, n := NextPart(block, parts);
      SkipEmpty(parts, block + 1, n);
    }

    method NextPart(block: nat, ghost parts: seq<seq<byte>>) returns (more: bool, ghost n: nat)
      requires Sane(p.blocks) && IsParts(parts, p.blocks, p.filter) && block < |parts|
      modifies `nextBlock, `start
      ensures block < n <= |parts| && if more then At(n) else n == |parts|
      ensures Empty(parts, block + 1, n)
    {
      more := GetNextBlock(block);
      n := if more then nextBlock else |parts|;
    }

    /** Headers for the first mappings, each right for a memory part `all` at `base`. */
    ghost predicate LoadsRight(loads: seq<Load>, base: nat, all: seq<byte>) {
      && |loads| <= |p.list|
      && (forall i :: 0 <= i < |loads| ==> loads[i].m == p.list[i] && LoadRight(p, base, all, loads[i]))
      && (forall i :: 0 <= i < |loads| ==> LoadPlaced(p, base, loads[i]))
    }

    /** Headers for the first mappings, as get_offset_range computes them. */
    ghost predicate LoadsMade(loads: seq<Load>, base: nat) {
      && |loads| <= |p.list|
      && forall i :: 0 <= i < |loads| ==> loads[i] == LoadFor(p.blocks, p.filter, base, p.list[i])
    }

    lemma LoadsRightNext(loads: seq<Load>, l: Load, base: nat, all: seq<byte>)
      requires LoadsRight(loads, base, all) && |loads| < |p.list| && l.m == p.list[|loads|]
      requires LoadRight(p, base, all, l) && LoadPlaced(p, base, l)
      ensures LoadsRight(loads + [l], base, all)
    {
    }

    lemma LoadsMadeNext(loads: seq<Load>, l: Load, base: nat)
      requires LoadsMade(loads, base) && |loads| < |p.list|
      requires l == LoadFor(p.blocks, p.filter, base, p.list[|loads|])
      ensures LoadsMade(loads + [l], base)
    {
    }

    /** One PT_LOAD header. */
    method WriteLoad(i: nat, memoryOffset: nat, ghost parts: seq<seq<byte>>, ghost all: seq<byte>)
      returns (ok: bool, l: Load)
      requires Sane(p.blocks) && parts == Parts(p.blocks, p.filter) && all == Concat(parts, |parts|) && i < |p.list|
      modifies `file, `attempts
      ensures l.m == p.list[i] && LoadRight(p, memoryOffset, all, l) && LoadPlaced(p, memoryOffset, l)
      ensures l == LoadFor(p.blocks, p.filter, memoryOffset, p.list[i])
      ensures ok ==> file == old(file) + Header(p)(l)
      ensures Always(accepts) ==> ok
    {
      l := MakeLoad(i, memoryOffset, parts, all);
      ok := Write(Header(p)(l));
    }

    method MakeLoad(i: nat, memoryOffset: nat, ghost parts: seq<seq<byte>>, ghost all: seq<byte>) returns (l: Load)
      requires Sane(p.blocks) && parts == Parts(p.blocks, p.filter) && all == Concat(parts, |parts|) && i < |p.list|
      ensures l.m == p.list[i] && LoadRight(p, memoryOffset, all, l) && LoadPlaced(p, memoryOffset, l)
      ensures l == LoadFor(p.blocks, p.filter, memoryOffset, p.list[i])
    {
      var offset, filesz := GetOffsetRange(p.blocks, p.filter, memoryOffset, p.list[i], parts, all);
      l := Load(p.list[i], offset, filesz);
    }

    /** write_elf_loads */
    method WriteElfLoads(memoryOffset: nat, ghost parts: seq<seq<byte>>, ghost all: seq<byte>)
      returns (ok: bool, loads: seq<Load>)
      requires Sane(p.blocks) && parts == Parts(p.blocks, p.filter) && all == Concat(parts, |parts|)
      requires |p.list| <= UINT32_MAX
      modifies `file, `attempts
      ensures ok ==> file == old(file) + LoadBytes(Header(p), loads) && 1 + |loads| == HeaderCount(p)
      ensures ok ==> LoadsRight(loads, memoryOffset, all) && LoadsMade(loads, memoryOffset)
      ensures Always(accepts) ==> ok
    {
      var phdrIndex, maxIndex := 1, HeaderCount(p);
      loads := [];
      for i := 0 to |p.list|
        invariant |loads| == i && phdrIndex == 1 + i && (i == 0 || phdrIndex < maxIndex)
        invariant file == old(file) + LoadBytes(Header(p), loads)
        invariant LoadsRight(loads, memoryOffset, all) && LoadsMade(loads, memoryOffset)
      {
        ok, loads := AddLoad(loads, memoryOffset, parts, all, old(file));
        if !ok {
          return;
        }
        phdrIndex := phdrIndex + 1;
        if phdrIndex >= maxIndex {
          return true, loads;
        }
      }
      ok := true;
    }

    /** The next header. */
    method AddLoad(loads: seq<Load>, memoryOffset: nat, ghost parts: seq<seq<byte>>, ghost all: seq<byte>,
                   ghost f: seq<byte>)
      returns (ok: bool, loads': seq<Load>)
      requires Sane(p.blocks) && parts == Parts(p.blocks, p.filter) && all == Concat(parts, |parts|)
      requires |loads| < |p.list| && LoadsRight(loads, memoryOffset, all) && LoadsMade(loads, memoryOffset)
      requires file == f + LoadBytes(Header(p), loads)
      modifies `file, `attempts
      ensures |loads'| == |loads| + 1 && LoadsRight(loads', memoryOffset, all) && LoadsMade(loads', memoryOffset)
      ensures ok ==> file == f + LoadBytes(Header(p), loads')
      ensures Always(accepts) ==> ok
    {
      var l: Load;
      ok, l := WriteLoad(|loads|, memoryOffset, parts, all);
      LoadBytesNext(Header(p), loads, l, f);
      LoadsRightNext(loads, l, memoryOffset, all);
      LoadsMadeNext(loads, l, memoryOffset);
      loads' := loads + [l];
    }

    /** dump_begin: everything before the memory. */
    method DumpBegin(ghost parts: seq<seq<byte>>, ghost all: seq<byte>) returns (ok: bool, loads: seq<Load>)
      requires PlanOk(p) && parts == Parts(p.blocks, p.filter) && all == Concat(parts, |parts|) && file == []
      modifies `file, `attempts
      ensures ok ==> file == Prefix(p, loads) && 1 + |loads| == HeaderCount(p)
      ensures ok ==> LoadsRight(loads, MemoryOffset(p), all) && LoadsMade(loads, MemoryOffset(p))
      ensures Always(accepts) ==> ok
    {
      loads := [];
      ok := WriteTop();
      if ok {
        ok, loads := WriteElfLoads(MemoryOffset(p), parts, all);
      }
      if ok {
        ok := WriteNotes();
      }
    }

    method WriteTop() returns (ok: bool)
      requires file == []
      modifies `file, `attempts
      ensures ok ==> file == p.ehdr + p.noteHeader
      ensures Always(accepts) ==> ok
    {
      ok := Write(p.ehdr);
      if ok {
        ok := Write(p.noteHeader);
        assert [] + p.ehdr + p.noteHeader == p.ehdr + p.noteHeader;
      }
    }

    method WriteNotes() returns (ok: bool)
      modifies `file, `attempts
      ensures ok ==> file == old(file) + SectionBytes(p) + p.notes
      ensures Always(accepts) ==> ok
    {
      if HaveSection(p) {
        ok := Write(p.section);
        if !ok {
          return;
        }
      } else {
        assert file + [] == file;
      }
      ok := Write(p.notes);
    }

    /** create_vmcore: the file is the headers and the memory; what each program header in it
        tells a reader. */
    method CreateVmcore() returns (ok: bool, loads: seq<Load>)
      requires PlanOk(p) && file == []
      modifies this
      ensures ok ==> file == Prefix(p, loads) + Memory(p.blocks, p.filter)
      ensures ok ==> |loads| + 1 == HeaderCount(p) && loads == LoadsFor(p) && file == ElfFile(p)
      ensures ok ==> HeadersRight(p, file, loads)
      ensures Always(accepts) ==> (ok <==> exists i :: 0 <= i < |p.blocks| && !OutOfRange(p.filter, p.blocks[i]))
    {
      ghost var parts := Parts(p.blocks, p.filter);
      ghost var all := Concat(parts, |parts|);
      loads := [];
      ok := GetStartBlock();
      if !ok {
        return;
      }
      ok, loads := DumpBegin(parts, all);
      if !ok {
        return;
      }
      ghost var head := file;
      PrefixLength(p, loads);
      ok := DumpIterate(parts);
      if ok {
        VmcoreDone(p, loads, head, all);
      }
    }

    /** The size dump_iterate computes for the next block. */
    method BlockSize() returns (size: nat)
      requires At(nextBlock)
      ensures size == DumpedSize(p.filter, p.blocks[nextBlock])
    {
      var b := p.blocks[nextBlock];
      size := b.end - b.start;
      if p.filter.Some? {
        size := size - start;
        if p.filter.value.begin + p.filter.value.length < b.end {
          size := size - (b.end - (p.filter.value.begin + p.filter.value.length));
        }
      }
    }
  }

  /** The file up to the memory. */
  function Prefix(p: Plan, loads: seq<Load>): seq<byte> {
    p.ehdr + p.noteHeader + LoadBytes(Header(p), loads) + SectionBytes(p) + p.notes
  }

  /** The headers of a dump. */
  ghost function LoadsFor(p: Plan): (loads: seq<Load>)
    requires |p.list| <= UINT32_MAX
    ensures 1 + |loads| == HeaderCount(p) && |loads| <= |p.list|
    ensures forall i :: 0 <= i < |loads| ==> loads[i] == LoadFor(p.blocks, p.filter, MemoryOffset(p), p.list[i])
  {
    seq(HeaderCount(p) - 1, i requires 0 <= i < HeaderCount(p) - 1 =>
      LoadFor(p.blocks, p.filter, MemoryOffset(p), p.list[i]))
  }

  /** The file of a dump. */
  ghost function ElfFile(p: Plan): seq<byte>
    requires PlanOk(p)
  {
    Prefix(p, LoadsFor(p)) + Memory(p.blocks, p.filter)
  }

  function SectionBytes(p: Plan): seq<byte> {
    if HaveSection(p) then p.section else []
  }

  /** Where the parts before the memory lie: ELF header, PT_NOTE header, program headers, section
      header, and the notes right before the memory. */
  lemma PrefixParts(p: Plan, loads: seq<Load>)
    requires PlanOk(p) && 1 + |loads| == HeaderCount(p)
    ensures |Prefix(p, loads)| == MemoryOffset(p)
    ensures Prefix(p, loads)[..EhdrSize(p.class64)] == p.ehdr
    ensures Prefix(p, loads)[EhdrSize(p.class64)..EhdrSize(p.class64) + PhdrSize(p.class64)] == p.noteHeader
    ensures HaveSection(p) ==>
              var from := EhdrSize(p.class64) + PhdrsSize(p.class64, HeaderCount(p));
              Prefix(p, loads)[from..from + ShdrSize(p.class64)] == p.section
    ensures Prefix(p, loads)[MemoryOffset(p) - |p.notes|..] == p.notes
  {
    PrefixLength(p, loads);
    LoadBytesLength(Header(p), p.class64, loads);
    PartsOf(p.ehdr, p.noteHeader, LoadBytes(Header(p), loads), SectionBytes(p), p.notes);
  }

  lemma PartsOf(a: seq<byte>, b: seq<byte>, c: seq<byte>, d: seq<byte>, e: seq<byte>)
    ensures var s, n := a + b + c + d + e, |a| + |b| + |c|;
            && s[..|a|] == a && s[|a|..|a| + |b|] == b && s[n..n + |d|] == d && s[n + |d|..] == e
  {
  }

  lemma PrefixLength(p: Plan, loads: seq<Load>)
    requires PlanOk(p) && 1 + |loads| == HeaderCount(p)
    ensures |Prefix(p, loads)| == MemoryOffset(p)
  {
    LoadBytesLength(Header(p), p.class64, loads);
  }

  lemma LoadBytesNext(header: Load -> seq<byte>, loads: seq<Load>, l: Load, f: seq<byte>)
    ensures f + LoadBytes(header, loads) + header(l) == f + LoadBytes(header, loads + [l])
  {
  }

  lemma LoadsInFile(p: Plan, loads: seq<Load>, head: seq<byte>, all: seq<byte>)
    requires forall i :: 0 <= i < |loads| ==> LoadRight(p, |head|, all, loads[i])
    ensures forall i :: 0 <= i < |loads| ==> LoadRight(p, 0, head + all, loads[i])
  {
    forall i | 0 <= i < |loads|
      ensures LoadRight(p, 0, head + all, loads[i])
    {
      LoadInFile(p, loads[i], head, all);
    }
  }

  lemma LoadInFile(p: Plan, l: Load, head: seq<byte>, all: seq<byte>)
    requires LoadRight(p, |head|, all, l)
    ensures LoadRight(p, 0, head + all, l)
  {
    if l.offset.Some? {
      var at := l.offset.value - |head|;
      var i :| 0 <= i < |p.blocks| && ShowsIn(p.blocks[i], p.filter, all, l.m, at, l.filesz);
      ShownBehind(p.blocks[i], p.filter, head, all, l.m, at, l.filesz, l.offset.value);
    }
  }

  lemma ShownBehind(b: Block, filter: Option<Filter>, head: seq<byte>, all: seq<byte>, m: Mapping, at: nat,
                    filesz: nat, place: nat)
    requires ShowsIn(b, filter, all, m, at, filesz) && place == |head| + at
    ensures ShowsIn(b, filter, head + all, m, place, filesz)
  {
    assert (head + all)[place..place + filesz] == all[at..at + filesz];
  }

  /** `parts` are the dumped bytes of the blocks. */
  ghost predicate IsParts(parts: seq<seq<byte>>, blocks: seq<Block>, filter: Option<Filter>)
    requires Sane(blocks)
  {
    |parts| == |blocks| && forall i :: 0 <= i < |parts| ==> parts[i] == Dumped(filter, blocks[i])
  }

  ghost predicate Empty(parts: seq<seq<byte>>, i: nat, n: nat) {
    i <= n <= |parts| && forall j :: i <= j < n ==> parts[j] == []
  }

  /** Behind `f` the file holds the first `n` parts. */
  ghost predicate Wrote(f: seq<byte>, parts: seq<seq<byte>>, n: nat, file: seq<byte>) {
    n <= |parts| && file == f + Concat(parts, n)
  }

  lemma PartWritten(parts: seq<seq<byte>>, n: nat, f: seq<byte>, before: seq<byte>, file: seq<byte>)
    requires n < |parts| && Wrote(f, parts, n, before) && file == before + parts[n]
    ensures Wrote(f, parts, n + 1, file)
  {
    assert f + Concat(parts, n) + parts[n] == f + (Concat(parts, n) + parts[n]);
  }

  lemma FirstParts(blocks: seq<Block>, filter: Option<Filter>, parts: seq<seq<byte>>, n: nat, f: seq<byte>)
    requires Sane(blocks) && IsParts(parts, blocks, filter) && n <= |parts|
    requires forall j :: 0 <= j < n ==> OutOfRange(filter, blocks[j])
    ensures Wrote(f, parts, n, f)
  {
    SkipEmpty(parts, 0, n);
    assert f + [] == f;
  }

  /** Empty parts add nothing. */
  lemma {:induction false} SkipEmpty(parts: seq<seq<byte>>, i: nat, n: nat)
    requires Empty(parts, i, n)
    ensures Concat(parts, n) == Concat(parts, i)
    decreases n
  {
    if i < n {
      SkipEmpty(parts, i, n - 1);
      assert Concat(parts, n - 1) + [] == Concat(parts, n - 1);
    }
  }

  // Reading the program headers

  /** Where program header `i` of the PT_LOAD headers begins, behind the PT_NOTE header. */
  function PhdrAt(class64: bool, i: nat): nat {
    EhdrSize(class64) + PhdrSize(class64) + PhdrsSize(class64, i)
  }

  /** The word at byte `at` of PT_LOAD header `i` of the file. */
  function ReadField(class64: bool, big: bool, file: seq<byte>, i: nat, at: nat): nat
    requires PhdrAt(class64, i) + at + WordSize(class64) <= |file|
  {
    var from := PhdrAt(class64, i) + at;
    Decode(big, file[from..from + WordSize(class64)])
  }

  function ReadOffset(class64: bool, big: bool, file: seq<byte>, i: nat): nat
    requires PhdrAt(class64, i) + PhdrSize(class64) <= |file|
  {
    ReadField(class64, big, file, i, WordSize(class64))
  }

  function ReadFilesz(class64: bool, big: bool, file: seq<byte>, i: nat): nat
    requires PhdrAt(class64, i) + PhdrSize(class64) <= |file|
  {
    ReadField(class64, big, file, i, 4 * WordSize(class64))
  }

  /** Field values of a class are below this. */
  function Limit(class64: bool): nat {
    if class64 then 0x1_0000_0000_0000_0000 else 0x1_0000_0000
  }

  lemma HeaderWords(class64: bool, big: bool, l: Load)
    ensures var s, w := LoadHeader(class64, big, l), WordSize(class64);
            s[w..2 * w] == Word(class64, big, OffsetField(l)) && s[4 * w..5 * w] == Word(class64, big, l.filesz)
  {
    var w, top, offset := WordSize(class64), HeaderTop(class64, big), Word(class64, big, OffsetField(l));
    var middle := Word(class64, big, l.m.virtAddr) + Word(class64, big, l.m.physAddr);
    var filesz, end := Word(class64, big, l.filesz), HeaderEnd(class64, big, l);
    WordsAt(top, offset, middle, filesz, end);
  }

  lemma WordsAt(a: seq<byte>, b: seq<byte>, c: seq<byte>, d: seq<byte>, e: seq<byte>)
    ensures var s := a + b + c + d + e;
            && s[|a|..|a| + |b|] == b
            && s[|a| + |b| + |c|..|a| + |b| + |c| + |d|] == d
  {
  }

  lemma WordRead(class64: bool, big: bool, v: nat)
    ensures Decode(big, Word(class64, big, v)) == v <==> v < Limit(class64)
  {
    WordSizes();
    WordKept(big, WordSize(class64), v);
  }

  lemma {:induction false} LoadBytesAt(header: Load -> seq<byte>, class64: bool, loads: seq<Load>, i: nat)
    requires i < |loads| && forall l :: |header(l)| == PhdrSize(class64)
    ensures PhdrsSize(class64, i) + PhdrSize(class64) <= |LoadBytes(header, loads)|
    ensures LoadBytes(header, loads)[PhdrsSize(class64, i)..PhdrsSize(class64, i) + PhdrSize(class64)] ==
            header(loads[i])
  {
    var n := |loads| - 1;
    var init, last := LoadBytes(header, loads[..n]), header(loads[n]);
    LoadBytesLength(header, class64, loads[..n]);
    if i == n {
      assert (init + last)[|init|..|init| + |last|] == last;
    } else {
      LoadBytesAt(header, class64, loads[..n], i);
      SliceExtend(init, last, PhdrsSize(class64, i), PhdrsSize(class64, i) + PhdrSize(class64));
    }
  }

  /** PT_LOAD header `i` of the file is `l`. */
  ghost predicate HeaderIs(class64: bool, big: bool, file: seq<byte>, i: nat, l: Load) {
    && PhdrAt(class64, i) + PhdrSize(class64) <= |file|
    && file[PhdrAt(class64, i)..PhdrAt(class64, i) + PhdrSize(class64)] == LoadHeader(class64, big, l)
  }

  lemma PrefixSplit(p: Plan, loads: seq<Load>, all: seq<byte>)
    ensures Prefix(p, loads) + all ==
            (p.ehdr + p.noteHeader) + LoadBytes(Header(p), loads) + (SectionBytes(p) + p.notes + all)
  {
  }

  lemma HeaderAt(p: Plan, loads: seq<Load>, all: seq<byte>, i: nat)
    requires PlanOk(p) && i < |loads|
    ensures HeaderIs(p.class64, p.big, Prefix(p, loads) + all, i, loads[i])
  {
    var top, bytes, tail := p.ehdr + p.noteHeader, LoadBytes(Header(p), loads), SectionBytes(p) + p.notes + all;
    LoadBytesAt(Header(p), p.class64, loads, i);
    PrefixSplit(p, loads, all);
    InnerSlice(top, bytes, tail, PhdrsSize(p.class64, i), PhdrSize(p.class64));
  }

  lemma InnerSlice(a: seq<byte>, b: seq<byte>, c: seq<byte>, from: nat, n: nat)
    requires from + n <= |b|
    ensures (a + b + c)[|a| + from..|a| + from + n] == b[from..from + n]
  {
  }

  lemma SliceOfSlice(s: seq<byte>, from: nat, n: nat, at: nat, w: nat)
    requires from + n <= |s| && at + w <= n
    ensures s[from..from + n][at..at + w] == s[from + at..from + at + w]
  {
    var x, y := s[from..from + n][at..at + w], s[from + at..from + at + w];
    forall k | 0 <= k < w ensures x[k] == y[k] {
      assert s[from..from + n][at + k] == s[from + at + k];
    }
    assert x == y;
  }

  /** A field reads back exactly if its value fits. */
  lemma FieldRead(class64: bool, big: bool, file: seq<byte>, i: nat, header: seq<byte>, at: nat, v: nat)
    requires PhdrAt(class64, i) + |header| <= |file| && at + WordSize(class64) <= |header|
    requires file[PhdrAt(class64, i)..PhdrAt(class64, i) + |header|] == header
    requires header[at..at + WordSize(class64)] == Word(class64, big, v)
    ensures ReadField(class64, big, file, i, at) == v <==> v < Limit(class64)
  {
    SliceOfSlice(file, PhdrAt(class64, i), |header|, at, WordSize(class64));
    WordRead(class64, big, v);
  }

  /** In the file, p_offset is the offset exactly if that fits the field. */
  lemma OffsetKept(class64: bool, big: bool, file: seq<byte>, i: nat, l: Load)
    requires HeaderIs(class64, big, file, i, l)
    ensures ReadOffset(class64, big, file, i) == OffsetField(l) <==> OffsetField(l) < Limit(class64)
  {
    HeaderWords(class64, big, l);
    FieldRead(class64, big, file, i, LoadHeader(class64, big, l), WordSize(class64), OffsetField(l));
  }

  /** p_offset is the offset cut to the field. */
  lemma OffsetTruncated(class64: bool, big: bool, file: seq<byte>, i: nat, l: Load)
    requires HeaderIs(class64, big, file, i, l)
    ensures ReadOffset(class64, big, file, i) == OffsetField(l) % Limit(class64)
  {
    HeaderWords(class64, big, l);
    FieldTruncated(class64, big, file, i, LoadHeader(class64, big, l), WordSize(class64), OffsetField(l));
  }

  lemma FieldTruncated(class64: bool, big: bool, file: seq<byte>, i: nat, header: seq<byte>, at: nat, v: nat)
    requires PhdrAt(class64, i) + |header| <= |file| && at + WordSize(class64) <= |header|
    requires file[PhdrAt(class64, i)..PhdrAt(class64, i) + |header|] == header
    requires header[at..at + WordSize(class64)] == Word(class64, big, v)
    ensures ReadField(class64, big, file, i, at) == v % Limit(class64)
  {
    SliceOfSlice(file, PhdrAt(class64, i), |header|, at, WordSize(class64));
    WordSizes();
    WordCut(big, WordSize(class64), v);
  }

  lemma FileszKept(class64: bool, big: bool, file: seq<byte>, i: nat, l: Load)
    requires HeaderIs(class64, big, file, i, l)
    ensures ReadFilesz(class64, big, file, i) == l.filesz <==> l.filesz < Limit(class64)
  {
    HeaderWords(class64, big, l);
    FieldRead(class64, big, file, i, LoadHeader(class64, big, l), 4 * WordSize(class64), l.filesz);
  }

  /** What a reader learns from PT_LOAD header `i` of the file. If the guest has the mapping's
      address, its bytes are at `at` behind the headers, p_filesz is how many there are, and
      p_offset points at them exactly if that place fits the field. */
  ghost predicate HeaderTells(p: Plan, file: seq<byte>, i: nat)
    requires i < |p.list|
  {
    && PhdrAt(p.class64, i) + PhdrSize(p.class64) <= |file|
    && if Covered(p.blocks, p.filter, p.list[i].physAddr) then exists at :: HeaderLeads(p, file, i, at)
       else ReadFilesz(p.class64, p.big, file, i) == 0
  }

  ghost predicate HeaderLeads(p: Plan, file: seq<byte>, i: nat, at: nat)
    requires i < |p.list| && PhdrAt(p.class64, i) + PhdrSize(p.class64) <= |file|
  {
    && Placed(p.blocks, p.filter, p.list[i].physAddr, at)
    && Shows(p.blocks, p.filter, file, p.list[i], MemoryOffset(p) + at, ReadFilesz(p.class64, p.big, file, i))
    && (ReadOffset(p.class64, p.big, file, i) == MemoryOffset(p) + at <==> MemoryOffset(p) + at < Limit(p.class64))
  }

  lemma FileszFits(p: Plan, base: nat, all: seq<byte>, l: Load)
    requires PlanOk(p) && LoadRight(p, base, all, l)
    ensures l.filesz < Limit(p.class64)
  {
  }

  lemma HeaderTold(p: Plan, file: seq<byte>, i: nat, l: Load)
    requires PlanOk(p) && i < |p.list| && l.m == p.list[i] && HeaderIs(p.class64, p.big, file, i, l)
    requires LoadRight(p, 0, file, l) && LoadPlaced(p, MemoryOffset(p), l)
    ensures HeaderTells(p, file, i)
  {
    FileszKept(p.class64, p.big, file, i, l);
    FileszFits(p, 0, file, l);
    if l.offset.Some? {
      HeaderLed(p, file, i, l, l.offset.value - MemoryOffset(p));
    }
  }

  lemma HeaderLed(p: Plan, file: seq<byte>, i: nat, l: Load, at: nat)
    requires i < |p.list| && l.m == p.list[i] && HeaderIs(p.class64, p.big, file, i, l)
    requires l.offset == Some(MemoryOffset(p) + at) && Placed(p.blocks, p.filter, l.m.physAddr, at)
    requires Shows(p.blocks, p.filter, file, l.m, MemoryOffset(p) + at, l.filesz)
    requires ReadFilesz(p.class64, p.big, file, i) == l.filesz
    ensures HeaderLeads(p, file, i, at)
  {
    OffsetKept(p.class64, p.big, file, i, l);
  }

  /** What PT_LOAD header `i` of the file says of its mapping: its type, and the virtual address, the
      guest address and the length, each cut to the field. */
  ghost predicate Names(class64: bool, big: bool, file: seq<byte>, i: nat, m: Mapping) {
    && PhdrAt(class64, i) + PhdrSize(class64) <= |file|
    && Decode(big, file[PhdrAt(class64, i)..PhdrAt(class64, i) + 4]) == PT_LOAD
    && ReadField(class64, big, file, i, 2 * WordSize(class64)) == m.virtAddr % Limit(class64)
    && ReadPaddr(class64, big, file, i) == m.physAddr % Limit(class64)
    && ReadField(class64, big, file, i, 5 * WordSize(class64)) == m.length % Limit(class64)
  }

  function ReadPaddr(class64: bool, big: bool, file: seq<byte>, i: nat): nat
    requires PhdrAt(class64, i) + PhdrSize(class64) <= |file|
  {
    ReadField(class64, big, file, i, 3 * WordSize(class64))
  }

  /** The guest address of memory the guest has is never cut. */
  ghost predicate HeaderNames(p: Plan, file: seq<byte>, i: nat)
    requires i < |p.list|
  {
    && Names(p.class64, p.big, file, i, p.list[i])
    && (Covered(p.blocks, p.filter, p.list[i].physAddr) ==>
          ReadPaddr(p.class64, p.big, file, i) == p.list[i].physAddr)
  }

  /** The parts of a header, and where they begin. */
  lemma HeaderSlices(class64: bool, big: bool, l: Load)
    ensures var s, w := LoadHeader(class64, big, l), WordSize(class64);
            && s[0..4] == Encode(big, 4, PT_LOAD)
            && s[2 * w..3 * w] == Word(class64, big, l.m.virtAddr)
            && s[3 * w..4 * w] == Word(class64, big, l.m.physAddr)
            && s[5 * w..6 * w] == Word(class64, big, l.m.length)
  {
    var top, offset := HeaderTop(class64, big), Word(class64, big, OffsetField(l));
    var v, a := Word(class64, big, l.m.virtAddr), Word(class64, big, l.m.physAddr);
    var filesz, end := Word(class64, big, l.filesz), HeaderEnd(class64, big, l);
    TypeFirst(class64, big, l);
    MiddleSlices(top + offset, v, a, filesz + end);
    assert LoadHeader(class64, big, l) == (top + offset) + (v + a) + (filesz + end);
    LengthFirst(class64, big, l);
  }

  lemma TypeFirst(class64: bool, big: bool, l: Load)
    ensures LoadHeader(class64, big, l)[0..4] == Encode(big, 4, PT_LOAD)
  {
    var rest := Word(class64, big, OffsetField(l))
                + (Word(class64, big, l.m.virtAddr) + Word(class64, big, l.m.physAddr))
                + Word(class64, big, l.filesz) + HeaderEnd(class64, big, l);
    assert LoadHeader(class64, big, l) == HeaderTop(class64, big) + rest;
    SliceExtend(HeaderTop(class64, big), rest, 0, 4);
    assert HeaderTop(class64, big)[0..4] == Encode(big, 4, PT_LOAD);
  }

  lemma LengthFirst(class64: bool, big: bool, l: Load)
    ensures var w := WordSize(class64); LoadHeader(class64, big, l)[5 * w..6 * w] == Word(class64, big, l.m.length)
  {
    var w, n := WordSize(class64), Word(class64, big, l.m.length);
    var head := HeaderTop(class64, big) + Word(class64, big, OffsetField(l))
                + (Word(class64, big, l.m.virtAddr) + Word(class64, big, l.m.physAddr)) + Word(class64, big, l.filesz);
    var rest := if class64 then Encode(big, 8, 0) else Encode(big, 4, 0) + Encode(big, 4, 0);
    assert LoadHeader(class64, big, l) == head + (n + rest);
    InnerSlice(head, n + rest, [], 0, w);
    assert head + (n + rest) + [] == head + (n + rest);
  }

  lemma MiddleSlices(a: seq<byte>, b: seq<byte>, c: seq<byte>, d: seq<byte>)
    ensures var s := a + (b + c) + d;
            s[|a|..|a| + |b|] == b && s[|a| + |b|..|a| + |b| + |c|] == c
  {
  }

  lemma TypeRead(class64: bool, big: bool, file: seq<byte>, i: nat, l: Load)
    requires HeaderIs(class64, big, file, i, l)
    ensures Decode(big, file[PhdrAt(class64, i)..PhdrAt(class64, i) + 4]) == PT_LOAD
  {
    TypeFirst(class64, big, l);
    SliceOfSlice(file, PhdrAt(class64, i), PhdrSize(class64), 0, 4);
    WordSizes();
    DecodeEncode(big, 4, PT_LOAD);
  }

  lemma MappingRead(class64: bool, big: bool, file: seq<byte>, i: nat, l: Load)
    requires HeaderIs(class64, big, file, i, l)
    ensures Names(class64, big, file, i, l.m)
  {
    TypeRead(class64, big, file, i, l);
    FieldOf(class64, big, file, i, l, 2, l.m.virtAddr);
    FieldOf(class64, big, file, i, l, 3, l.m.physAddr);
    FieldOf(class64, big, file, i, l, 5, l.m.length);
  }

  lemma FieldOf(class64: bool, big: bool, file: seq<byte>, i: nat, l: Load, k: nat, v: nat)
    requires HeaderIs(class64, big, file, i, l)
    requires (k == 2 && v == l.m.virtAddr) || (k == 3 && v == l.m.physAddr) || (k == 5 && v == l.m.length)
    ensures ReadField(class64, big, file, i, k * WordSize(class64)) == v % Limit(class64)
  {
    HeaderSlices(class64, big, l);
    FieldTruncated(class64, big, file, i, LoadHeader(class64, big, l), k * WordSize(class64), v);
  }

  lemma NotCut(v: nat, class64: bool)
    requires v < Limit(class64)
    ensures v % Limit(class64) == v
  {
  }

  lemma AddressFits(p: Plan, addr: nat)
    requires PlanOk(p) && Covered(p.blocks, p.filter, addr)
    ensures addr < Limit(p.class64)
  {
  }

  lemma HeaderNamed(p: Plan, file: seq<byte>, i: nat, l: Load)
    requires PlanOk(p) && i < |p.list| && l.m == p.list[i] && HeaderIs(p.class64, p.big, file, i, l)
    ensures HeaderNames(p, file, i)
  {
    MappingRead(p.class64, p.big, file, i, l);
    if Covered(p.blocks, p.filter, l.m.physAddr) {
      AddressFits(p, l.m.physAddr);
      NotCut(l.m.physAddr, p.class64);
    }
  }

  /** Every program header is right, and what a reader learns from it. */
  ghost predicate HeadersRight(p: Plan, file: seq<byte>, loads: seq<Load>) {
    && |loads| <= |p.list|
    && (forall i :: 0 <= i < |loads| ==> loads[i].m == p.list[i] && LoadRight(p, 0, file, loads[i]))
    && (forall i :: 0 <= i < |loads| ==> HeaderTells(p, file, i) && HeaderNames(p, file, i))
  }

  lemma VmcoreDone(p: Plan, loads: seq<Load>, head: seq<byte>, all: seq<byte>)
    requires PlanOk(p) && |loads| <= |p.list| && head == Prefix(p, loads) && |head| == MemoryOffset(p)
    requires forall i :: 0 <= i < |loads| ==> loads[i].m == p.list[i] && LoadRight(p, |head|, all, loads[i])
    requires forall i :: 0 <= i < |loads| ==> LoadPlaced(p, |head|, loads[i])
    ensures HeadersRight(p, head + all, loads)
  {
    LoadsInFile(p, loads, head, all);
    HeadersTell(p, loads, all);
  }

  lemma HeadersTell(p: Plan, loads: seq<Load>, all: seq<byte>)
    requires PlanOk(p) && |loads| <= |p.list|
    requires forall i :: 0 <= i < |loads| ==> loads[i].m == p.list[i] && LoadPlaced(p, MemoryOffset(p), loads[i])
    requires forall i :: 0 <= i < |loads| ==> LoadRight(p, 0, Prefix(p, loads) + all, loads[i])
    ensures forall i :: 0 <= i < |loads| ==> HeaderTells(p, Prefix(p, loads) + all, i)
    ensures forall i :: 0 <= i < |loads| ==> HeaderNames(p, Prefix(p, loads) + all, i)
  {
    var file := Prefix(p, loads) + all;
    forall i | 0 <= i < |loads|
      ensures HeaderTells(p, file, i) && HeaderNames(p, file, i)
    {
      HeaderAt(p, loads, all, i);
      HeaderNamed(p, file, i, loads[i]);
      HeaderTold(p, file, i, loads[i]);
    }
  }
}
