/** What a reader of the ELF vmcore finds through the program headers: the guest's bytes if
    their place in the file fits p_offset, and otherwise not for all guests (dump.c). */
module ElfReader {
  import opened Basics
  import opened GuestPages
  import opened DumpBytes
  import opened ElfDump

  /** Every byte of the dumped memory has a place the field can name. */
  ghost predicate PlacesFit(p: Plan) {
    forall addr, at :: Placed(p.blocks, p.filter, addr, at) ==> MemoryOffset(p) + at < Limit(p.class64)
  }

  lemma {:induction false} SizeBeforeGrows(blocks: seq<Block>, filter: Option<Filter>, i: nat, n: nat)
    requires i <= n <= |blocks|
    ensures SizeBefore(blocks, filter, i) <= SizeBefore(blocks, filter, n)
  {
    if i < n {
      SizeBeforeGrows(blocks, filter, i, n - 1);
    }
  }

  lemma PlaceBound(blocks: seq<Block>, filter: Option<Filter>, addr: nat, at: nat)
    requires Sane(blocks) && Placed(blocks, filter, addr, at)
    ensures at < SizeBefore(blocks, filter, |blocks|)
  {
    var i: nat :| PlacedIn(blocks, filter, i, addr, at);
    assert SizeBefore(blocks, filter, i + 1) == SizeBefore(blocks, filter, i) + DumpedSize(filter, blocks[i]);
    SizeBeforeGrows(blocks, filter, i + 1, |blocks|);
  }

  /** The last byte of the memory is the byte of some address. */
  lemma {:induction false} LastPlace(blocks: seq<Block>, filter: Option<Filter>, n: nat) returns (addr: nat)
    requires Sane(blocks) && n <= |blocks| && SizeBefore(blocks, filter, n) > 0
    ensures Placed(blocks, filter, addr, SizeBefore(blocks, filter, n) - 1)
  {
    if DumpedSize(filter, blocks[n - 1]) == 0 {
      addr := LastPlace(blocks, filter, n - 1);
    } else {
      addr := Hi(filter, blocks[n - 1]) - 1;
      assert PlacedIn(blocks, filter, n - 1, addr, SizeBefore(blocks, filter, n) - 1);
    }
  }

  /** Every p_offset can be right exactly if the file is no longer than the field can count:
      4 GiB for ELF32. */
  lemma PlacesFitExactly(p: Plan)
    requires PlanOk(p)
    ensures PlacesFit(p) <==> Memory(p.blocks, p.filter) == [] ||
                              MemoryOffset(p) + |Memory(p.blocks, p.filter)| <= Limit(p.class64)
  {
    var parts, n := Parts(p.blocks, p.filter), |p.blocks|;
    PartSizes(p.blocks, p.filter);
    ConcatSize(p.blocks, p.filter, parts, n);
    var total := SizeBefore(p.blocks, p.filter, n);
    if total == 0 || MemoryOffset(p) + total <= Limit(p.class64) {
      forall addr, at | Placed(p.blocks, p.filter, addr, at)
        ensures MemoryOffset(p) + at < Limit(p.class64)
      {
        PlaceBound(p.blocks, p.filter, addr, at);
      }
    } else {
      var addr := LastPlace(p.blocks, p.filter, n);
    }
  }

  // What p_offset leads to

  /** A reader of `file` who takes p_filesz bytes from p_offset of header `i` gets the bytes of
      block `b` from the mapping's address on. */
  ghost predicate ReadIn(class64: bool, big: bool, file: seq<byte>, i: nat, b: Block, filter: Option<Filter>,
                         m: Mapping)
  {
    && PhdrAt(class64, i) + PhdrSize(class64) <= |file|
    && ShowsIn(b, filter, file, m, ReadOffset(class64, big, file, i), ReadFilesz(class64, big, file, i))
  }

  /** Reading `file` gives the guest bytes of mapping `i`, or nothing if the guest does not have
      its address. */
  ghost predicate ReadRightIn(p: Plan, file: seq<byte>, i: nat)
    requires i < |p.list|
  {
    var k := First(p.blocks, p.filter, p.list[i].physAddr);
    if k < |p.blocks| then ReadIn(p.class64, p.big, file, i, p.blocks[k], p.filter, p.list[i])
    else ReadNothing(p.class64, p.big, file, i)
  }

  ghost predicate ReadRight(p: Plan, i: nat)
    requires PlanOk(p) && i + 1 < HeaderCount(p)
  {
    ReadRightIn(p, ElfFile(p), i)
  }

  ghost predicate ReadNothing(class64: bool, big: bool, file: seq<byte>, i: nat) {
    PhdrAt(class64, i) + PhdrSize(class64) <= |file| && ReadFilesz(class64, big, file, i) == 0
  }

  /** The header that is written for mapping `i`. */
  ghost function LoadOf(p: Plan, i: nat): Load
    requires i < |p.list|
  {
    LoadFor(p.blocks, p.filter, MemoryOffset(p), p.list[i])
  }

  /** There is nothing to read, or its place fits the field. */
  predicate Fits(class64: bool, l: Load) {
    l.filesz == 0 || OffsetField(l) < Limit(class64)
  }

  lemma ReadBelow(class64: bool, big: bool, file: seq<byte>, i: nat)
    requires PhdrAt(class64, i) + PhdrSize(class64) <= |file|
    ensures ReadOffset(class64, big, file, i) < Limit(class64)
  {
    var from := PhdrAt(class64, i) + WordSize(class64);
    WordSizes();
    DecodeBound(big, file[from..from + WordSize(class64)]);
  }

  lemma FitsReads(class64: bool, big: bool, file: seq<byte>, i: nat, l: Load, b: Block, filter: Option<Filter>)
    requires HeaderIs(class64, big, file, i, l) && l.offset.Some? && l.filesz < Limit(class64) && Fits(class64, l)
    requires ShowsIn(b, filter, file, l.m, l.offset.value, l.filesz)
    ensures ReadIn(class64, big, file, i, b, filter, l.m)
  {
    OffsetKept(class64, big, file, i, l);
    FileszKept(class64, big, file, i, l);
    ReadBelow(class64, big, file, i);
  }

  lemma OtherByteReads(class64: bool, big: bool, file: seq<byte>, i: nat, b: Block, filter: Option<Filter>,
                       m: Mapping, t: nat, v: byte)
    requires PhdrAt(class64, i) + PhdrSize(class64) <= |file| && ReadFilesz(class64, big, file, i) > 0
    requires t == ReadOffset(class64, big, file, i) && t < |file| && file[t] != v
    requires BlockSane(b) && b.start <= m.physAddr < b.end && b.host[m.physAddr - b.start] == v
    ensures !ReadIn(class64, big, file, i, b, filter, m)
  {
    NotShown(b, filter, file, m, t, ReadFilesz(class64, big, file, i), v);
  }

  lemma NotShown(b: Block, filter: Option<Filter>, file: seq<byte>, m: Mapping, at: nat, filesz: nat, v: byte)
    requires filesz > 0 && at < |file| && file[at] != v
    requires BlockSane(b) && b.start <= m.physAddr < b.end && b.host[m.physAddr - b.start] == v
    ensures !ShowsIn(b, filter, file, m, at, filesz)
  {
    if ShowsIn(b, filter, file, m, at, filesz) {
      FirstByte(b, filter, file, m, at, filesz);
    }
  }

  lemma FirstByte(b: Block, filter: Option<Filter>, file: seq<byte>, m: Mapping, at: nat, filesz: nat)
    requires filesz > 0 && ShowsIn(b, filter, file, m, at, filesz)
    ensures file[at] == b.host[m.physAddr - b.start]
  {
    assert file[at..at + filesz][0] == file[at];
  }

  // The file of a dump

  lemma HeaderOf(p: Plan, i: nat)
    requires PlanOk(p) && i + 1 < HeaderCount(p)
    ensures HeaderIs(p.class64, p.big, ElfFile(p), i, LoadOf(p, i))
  {
    HeaderAt(p, LoadsFor(p), Memory(p.blocks, p.filter), i);
  }

  lemma FileszSmall(p: Plan, i: nat)
    requires PlanOk(p) && i < |p.list|
    ensures LoadOf(p, i).filesz < Limit(p.class64)
  {
    LoadMeans(p.blocks, p.filter, MemoryOffset(p), p.list[i]);
  }

  lemma ShownInFile(blocks: seq<Block>, filter: Option<Filter>, parts: seq<seq<byte>>, k: nat, m: Mapping, at: nat,
                    filesz: nat, head: seq<byte>, place: nat)
    requires Sane(blocks) && parts == Parts(blocks, filter) && place == |head| + at
    requires PlacedIn(blocks, filter, k, m.physAddr, at) && filesz == Clamp(blocks[k], filter, m)
    ensures ShowsIn(blocks[k], filter, head + Concat(parts, |parts|), m, place, filesz)
  {
    RangeShown(blocks, filter, parts, k, m, at, filesz);
    ShownBehind(blocks[k], filter, head, Concat(parts, |parts|), m, at, filesz, place);
  }

  /** The guest bytes of mapping `i` are at the offset of its header. */
  lemma LoadShown(p: Plan, i: nat, k: nat, l: Load)
    requires PlanOk(p) && i < |p.list| && l == LoadOf(p, i)
    requires k == First(p.blocks, p.filter, p.list[i].physAddr) < |p.blocks|
    ensures l.m == p.list[i] && l.offset.Some?
    ensures ShowsIn(p.blocks[k], p.filter, ElfFile(p), l.m, l.offset.value, l.filesz)
  {
    PrefixLength(p, LoadsFor(p));
    ShownAt(p.blocks, p.filter, Parts(p.blocks, p.filter), Prefix(p, LoadsFor(p)), p.list[i], l);
  }

  lemma ShownAt(blocks: seq<Block>, filter: Option<Filter>, parts: seq<seq<byte>>, head: seq<byte>, m: Mapping, l: Load)
    requires Sane(blocks) && parts == Parts(blocks, filter) && First(blocks, filter, m.physAddr) < |blocks|
    requires l == LoadFor(blocks, filter, |head|, m)
    ensures l.m == m && l.offset.Some?
    ensures ShowsIn(blocks[First(blocks, filter, m.physAddr)], filter, head + Concat(parts, |parts|), m,
                    l.offset.value, l.filesz)
  {
    var k := First(blocks, filter, m.physAddr);
    LoadMeans(blocks, filter, |head|, m);
    ShownInFile(blocks, filter, parts, k, m, l.offset.value - |head|, l.filesz, head, l.offset.value);
  }

  lemma FitsReadRight(p: Plan, i: nat)
    requires PlanOk(p) && i + 1 < HeaderCount(p) && Fits(p.class64, LoadOf(p, i))
    ensures ReadRight(p, i)
  {
    var file, l, k := ElfFile(p), LoadOf(p, i), First(p.blocks, p.filter, p.list[i].physAddr);
    HeaderOf(p, i);
    FileszSmall(p, i);
    if k < |p.blocks| {
      LoadShown(p, i, k, l);
      FitsReads(p.class64, p.big, file, i, l, p.blocks[k], p.filter);
    } else {
      LoadMeans(p.blocks, p.filter, MemoryOffset(p), p.list[i]);
      FileszKept(p.class64, p.big, file, i, l);
    }
  }

  // The same dump of a guest with other bytes

  ghost predicate SameBlocks(a: seq<Block>, b: seq<Block>) {
    && |a| == |b|
    && forall i :: 0 <= i < |a| ==> a[i].start == b[i].start && a[i].end == b[i].end && |a[i].host| == |b[i].host|
  }

  ghost predicate SameShape(p: Plan, q: Plan) {
    && q == p.(blocks := q.blocks, ehdr := q.ehdr, noteHeader := q.noteHeader, section := q.section, notes := q.notes)
    && SameBlocks(p.blocks, q.blocks) && |p.ehdr| == |q.ehdr| && |p.noteHeader| == |q.noteHeader|
    && |p.section| == |q.section| && |p.notes| == |q.notes|
  }

  lemma {:induction false} SameSize(a: seq<Block>, b: seq<Block>, filter: Option<Filter>, n: nat)
    requires SameBlocks(a, b) && n <= |a|
    ensures SizeBefore(a, filter, n) == SizeBefore(b, filter, n)
  {
    if n > 0 {
      SameSize(a, b, filter, n - 1);
    }
  }

  lemma SameFirst(a: seq<Block>, b: seq<Block>, filter: Option<Filter>, addr: nat)
    requires SameBlocks(a, b)
    ensures First(a, filter, addr) == First(b, filter, addr)
  {
    assert forall j :: 0 <= j < |a| ==> (Covers(filter, a[j], addr) <==> Covers(filter, b[j], addr));
  }

  lemma SameLoad(a: seq<Block>, b: seq<Block>, filter: Option<Filter>, base: nat, m: Mapping)
    requires SameBlocks(a, b)
    ensures LoadFor(a, filter, base, m) == LoadFor(b, filter, base, m)
  {
    SameFirst(a, b, filter, m.physAddr);
    SameSize(a, b, filter, First(a, filter, m.physAddr));
  }

  lemma SamePlan(p: Plan, q: Plan, i: nat)
    requires PlanOk(p) && SameShape(p, q) && i < |p.list|
    ensures PlanOk(q) && MemoryOffset(p) == MemoryOffset(q) && LoadOf(p, i) == LoadOf(q, i)
  {
    SameLoad(p.blocks, q.blocks, p.filter, MemoryOffset(p), p.list[i]);
  }

  lemma SameLoads(p: Plan, q: Plan)
    requires PlanOk(p) && SameShape(p, q)
    ensures PlanOk(q) && LoadsFor(p) == LoadsFor(q)
  {
    forall i | 0 <= i < |LoadsFor(p)| ensures LoadsFor(p)[i] == LoadsFor(q)[i] {
      SamePlan(p, q, i);
    }
  }

  function SetByte(s: seq<byte>, x: nat, v: byte): seq<byte>
    requires x < |s|
  {
    s[x := v]
  }

  /** The block with another byte at address `addr`. */
  function BlockWith(b: Block, addr: nat, v: byte): Block
    requires BlockSane(b) && b.start <= addr < b.end
  {
    b.(host := SetByte(b.host, addr - b.start, v))
  }

  lemma {:induction false} ConcatWith(parts: seq<seq<byte>>, parts': seq<seq<byte>>, k: nat, x: nat, v: byte, n: nat,
                                      at: nat)
    requires k < n <= |parts| && x < |parts[k]| && parts' == parts[k := SetByte(parts[k], x, v)]
    requires at == |Concat(parts, k)| + x
    ensures at < |Concat(parts, n)|
    ensures Concat(parts', n) == SetByte(Concat(parts, n), at, v)
  {
    if n == k + 1 {
      ConcatSame(parts, parts', k);
    } else {
      ConcatWith(parts, parts', k, x, v, n - 1, at);
    }
  }

  lemma {:induction false} ConcatSame(parts: seq<seq<byte>>, parts': seq<seq<byte>>, n: nat)
    requires n <= |parts| && n <= |parts'| && forall j :: 0 <= j < n ==> parts[j] == parts'[j]
    ensures Concat(parts, n) == Concat(parts', n)
  {
    if n > 0 {
      ConcatSame(parts, parts', n - 1);
    }
  }

  lemma DumpedWith(filter: Option<Filter>, b: Block, c: Block, addr: nat, v: byte, x: nat)
    requires BlockSane(b) && Covers(filter, b, addr) && c == BlockWith(b, addr, v) && x == addr - Lo(filter, b)
    ensures x < |Dumped(filter, b)| && BlockSane(c) && Dumped(filter, c) == SetByte(Dumped(filter, b), x, v)
  {
    assert Lo(filter, c) == Lo(filter, b) && Hi(filter, c) == Hi(filter, b);
    SliceWith(b.host, addr - b.start, v, Lo(filter, b) - b.start, Hi(filter, b) - b.start, x);
  }

  lemma SliceWith(s: seq<byte>, x: nat, v: byte, lo: nat, hi: nat, y: nat)
    requires lo <= x < hi <= |s| && y == x - lo
    ensures SetByte(s, x, v)[lo..hi] == SetByte(s[lo..hi], y, v)
  {
  }

  lemma PartsWith(a: seq<Block>, b: seq<Block>, filter: Option<Filter>, parts: seq<seq<byte>>,
                  parts': seq<seq<byte>>, k: nat, addr: nat, v: byte, x: nat)
    requires Sane(a) && k < |a| && Covers(filter, a[k], addr) && b == a[k := BlockWith(a[k], addr, v)]
    requires IsParts(parts, a, filter) && Sane(b) && IsParts(parts', b, filter) && x == addr - Lo(filter, a[k])
    ensures x < |parts[k]| && parts' == parts[k := SetByte(parts[k], x, v)]
  {
    PartWith(a, b, filter, parts, parts', k, addr, v, x);
    OtherParts(a, b, filter, parts, parts', k);
    OnlyOne(parts, parts', k, SetByte(parts[k], x, v));
  }

  lemma PartWith(a: seq<Block>, b: seq<Block>, filter: Option<Filter>, parts: seq<seq<byte>>,
                 parts': seq<seq<byte>>, k: nat, addr: nat, v: byte, x: nat)
    requires Sane(a) && k < |a| && Covers(filter, a[k], addr) && b == a[k := BlockWith(a[k], addr, v)]
    requires IsParts(parts, a, filter) && Sane(b) && IsParts(parts', b, filter) && x == addr - Lo(filter, a[k])
    ensures x < |parts[k]| && parts'[k] == SetByte(parts[k], x, v)
  {
    DumpedWith(filter, a[k], b[k], addr, v, x);
  }

  lemma OtherParts(a: seq<Block>, b: seq<Block>, filter: Option<Filter>, parts: seq<seq<byte>>,
                   parts': seq<seq<byte>>, k: nat)
    requires Sane(a) && Sane(b) && k < |a| && |b| == |a| && b == a[k := b[k]]
    requires IsParts(parts, a, filter) && IsParts(parts', b, filter)
    ensures forall j :: 0 <= j < |parts| && j != k ==> parts'[j] == parts[j]
  {
  }

  lemma OnlyOne(s: seq<seq<byte>>, s': seq<seq<byte>>, k: nat, x: seq<byte>)
    requires k < |s| == |s'| && s'[k] == x && forall j :: 0 <= j < |s| && j != k ==> s'[j] == s[j]
    ensures s' == s[k := x]
  {
  }

  lemma BlocksWith(a: seq<Block>, b: seq<Block>, k: nat, addr: nat, v: byte)
    requires Sane(a) && k < |a| && a[k].start <= addr < a[k].end && b == a[k := BlockWith(a[k], addr, v)]
    ensures Sane(b) && SameBlocks(a, b) && b[k].host[addr - b[k].start] == v
  {
  }

  lemma MemoryWith(a: seq<Block>, b: seq<Block>, filter: Option<Filter>, parts: seq<seq<byte>>,
                   parts': seq<seq<byte>>, k: nat, addr: nat, v: byte, at: nat)
    requires Sane(a) && PlacedIn(a, filter, k, addr, at) && b == a[k := BlockWith(a[k], addr, v)]
    requires IsParts(parts, a, filter) && Sane(b) && IsParts(parts', b, filter)
    ensures at < |Concat(parts, |parts|)|
    ensures Concat(parts', |parts|) == SetByte(Concat(parts, |parts|), at, v)
  {
    var x := addr - Lo(filter, a[k]);
    PartsWith(a, b, filter, parts, parts', k, addr, v, x);
    PartPlace(a, filter, parts, k, addr, at, x);
    ConcatWith(parts, parts', k, x, v, |parts|, at);
  }

  lemma PartPlace(a: seq<Block>, filter: Option<Filter>, parts: seq<seq<byte>>, k: nat, addr: nat, at: nat,
                  x: nat)
    requires Sane(a) && PlacedIn(a, filter, k, addr, at) && IsParts(parts, a, filter) && x == addr - Lo(filter, a[k])
    ensures at == |Concat(parts, k)| + x
  {
    SizesOfParts(a, filter, parts);
    ConcatSize(a, filter, parts, k);
  }

  lemma SizesOfParts(blocks: seq<Block>, filter: Option<Filter>, parts: seq<seq<byte>>)
    requires Sane(blocks) && IsParts(parts, blocks, filter)
    ensures forall i :: 0 <= i < |blocks| ==> |parts[i]| == DumpedSize(filter, blocks[i])
  {
  }

  lemma SetBehind(head: seq<byte>, s: seq<byte>, at: nat, v: byte, place: nat)
    requires at < |s| && place == |head| + at
    ensures head + SetByte(s, at, v) == SetByte(head + s, place, v)
  {
  }

  /** Changing a guest byte changes the byte at its place in the file and no other. */
  lemma FileWith(p: Plan, q: Plan, k: nat, addr: nat, v: byte, at: nat, place: nat)
    requires PlanOk(p) && place == MemoryOffset(p) + at && PlacedIn(p.blocks, p.filter, k, addr, at)
    requires q == p.(blocks := p.blocks[k := BlockWith(p.blocks[k], addr, v)])
    requires SameShape(p, q) && PlanOk(q)
    ensures place < |ElfFile(p)| && ElfFile(q) == SetByte(ElfFile(p), place, v)
  {
    var parts, parts' := Parts(p.blocks, p.filter), Parts(q.blocks, p.filter);
    PrefixLength(p, LoadsFor(p));
    MemoryWith(p.blocks, q.blocks, p.filter, parts, parts', k, addr, v, at);
    SetBehind(Prefix(p, LoadsFor(p)), Concat(parts, |parts|), at, v, place);
    SamePrefix(p, q);
  }

  lemma SamePrefix(p: Plan, q: Plan)
    requires PlanOk(p) && SameShape(p, q) && q == p.(blocks := q.blocks)
    ensures PlanOk(q) && Prefix(p, LoadsFor(p)) == Prefix(q, LoadsFor(q))
  {
    SameLoads(p, q);
  }

  function Other(v: byte): (w: byte)
    ensures w != v
  {
    if v == 0 then 1 else 0
  }

  /** p_filesz promises bytes, and the byte at p_offset is not the guest's byte at the mapping's
      address. */
  ghost predicate WrongByte(q: Plan, file: seq<byte>, i: nat)
    requires i < |q.list|
  {
    var k, addr := First(q.blocks, q.filter, q.list[i].physAddr), q.list[i].physAddr;
    && k < |q.blocks| && BlockSane(q.blocks[k]) && q.blocks[k].start <= addr < q.blocks[k].end
    && PhdrAt(q.class64, i) + PhdrSize(q.class64) <= |file| && ReadFilesz(q.class64, q.big, file, i) > 0
    && ReadOffset(q.class64, q.big, file, i) < |file|
    && file[ReadOffset(q.class64, q.big, file, i)] != q.blocks[k].host[addr - q.blocks[k].start]
  }

  /** If the place does not fit, a guest that differs in one byte is read wrongly. */
  lemma OverflowMisreads(p: Plan, i: nat) returns (q: Plan)
    requires PlanOk(p) && i + 1 < HeaderCount(p) && !Fits(p.class64, LoadOf(p, i))
    ensures SameShape(p, q) && PlanOk(q) && WrongByte(q, ElfFile(q), i)
  {
    var file, l, m := ElfFile(p), LoadOf(p, i), p.list[i];
    var k := First(p.blocks, p.filter, m.physAddr);
    LoadMeans(p.blocks, p.filter, MemoryOffset(p), m);
    OffsetTooLow(p, i, k, l, file);
    q := OtherGuest(p, i, k, l, file, ReadOffset(p.class64, p.big, file, i));
  }

  lemma OtherGuest(p: Plan, i: nat, k: nat, l: Load, file: seq<byte>, t: nat) returns (q: Plan)
    requires PlanOk(p) && i + 1 < HeaderCount(p) && l == LoadOf(p, i) && file == ElfFile(p)
    requires l.m == p.list[i] && l.filesz > 0 && l.offset.Some? && l.offset.value >= MemoryOffset(p)
    requires k == First(p.blocks, p.filter, l.m.physAddr) < |p.blocks|
    requires PlacedIn(p.blocks, p.filter, k, l.m.physAddr, l.offset.value - MemoryOffset(p))
    requires HeaderIs(p.class64, p.big, file, i, l)
    requires t == ReadOffset(p.class64, p.big, file, i) && t < l.offset.value < |file|
    ensures SameShape(p, q) && PlanOk(q) && WrongByte(q, ElfFile(q), i)
  {
    var v := Other(file[t]);
    q := p.(blocks := p.blocks[k := BlockWith(p.blocks[k], l.m.physAddr, v)]);
    BlocksWith(p.blocks, q.blocks, k, l.m.physAddr, v);
    FileWith(p, q, k, l.m.physAddr, v, l.offset.value - MemoryOffset(p), l.offset.value);
    SameHeader(p, q, i, file, ElfFile(q), l);
    ByteKept(file, l.offset.value, v, t);
  }

  lemma OffsetTooLow(p: Plan, i: nat, k: nat, l: Load, file: seq<byte>)
    requires PlanOk(p) && i + 1 < HeaderCount(p) && l == LoadOf(p, i) && file == ElfFile(p)
    requires k == First(p.blocks, p.filter, p.list[i].physAddr) < |p.blocks| && !Fits(p.class64, l)
    ensures HeaderIs(p.class64, p.big, file, i, l) && l.offset.Some?
    ensures ReadOffset(p.class64, p.big, file, i) < l.offset.value < |file|
  {
    HeaderOf(p, i);
    ReadBelow(p.class64, p.big, file, i);
    LoadShown(p, i, k, l);
  }

  lemma SameHeader(p: Plan, q: Plan, i: nat, file: seq<byte>, file': seq<byte>, l: Load)
    requires PlanOk(p) && PlanOk(q) && i + 1 < HeaderCount(p) && SameShape(p, q) && l == LoadOf(p, i)
    requires HeaderIs(p.class64, p.big, file, i, l) && file' == ElfFile(q)
    ensures HeaderIs(q.class64, q.big, file', i, l) && ReadFilesz(q.class64, q.big, file', i) == l.filesz
    ensures ReadOffset(p.class64, p.big, file, i) == ReadOffset(q.class64, q.big, file', i)
    ensures First(p.blocks, p.filter, p.list[i].physAddr) == First(q.blocks, q.filter, q.list[i].physAddr)
  {
    SamePlan(p, q, i);
    HeaderOf(q, i);
    SameOffset(p.class64, p.big, file, file', i, l);
    FileszSmall(p, i);
    FileszKept(p.class64, p.big, file', i, l);
    SameFirst(p.blocks, q.blocks, p.filter, p.list[i].physAddr);
  }

  lemma Misread(q: Plan, file: seq<byte>, i: nat)
    requires i < |q.list| && WrongByte(q, file, i)
    ensures !ReadRightIn(q, file, i)
  {
    var k, t := First(q.blocks, q.filter, q.list[i].physAddr), ReadOffset(q.class64, q.big, file, i);
    var v := q.blocks[k].host[q.list[i].physAddr - q.blocks[k].start];
    OtherByteReads(q.class64, q.big, file, i, q.blocks[k], q.filter, q.list[i], t, v);
  }

  lemma ByteKept(s: seq<byte>, at: nat, v: byte, t: nat)
    requires t < at < |s|
    ensures t < |SetByte(s, at, v)| && SetByte(s, at, v)[t] == s[t]
  {
  }

  /** p_offset depends on the header alone. */
  lemma SameOffset(class64: bool, big: bool, file: seq<byte>, file': seq<byte>, i: nat, l: Load)
    requires HeaderIs(class64, big, file, i, l) && HeaderIs(class64, big, file', i, l)
    ensures ReadOffset(class64, big, file, i) == ReadOffset(class64, big, file', i)
  {
    OffsetTruncated(class64, big, file, i, l);
    OffsetTruncated(class64, big, file', i, l);
  }

  /** However the guest's bytes are chosen, a reader finds them. */
  ghost predicate AlwaysReads(p: Plan, i: nat)
    requires PlanOk(p) && i + 1 < HeaderCount(p)
  {
    forall q :: SameShape(p, q) ==> PlanOk(q) && ReadRight(q, i)
  }

  /** A reader finds the guest bytes of a mapping, whatever they are, exactly if there are
      none or their place in the file fits p_offset. */
  lemma ReadsExactly(p: Plan, i: nat)
    requires PlanOk(p) && i + 1 < HeaderCount(p)
    ensures AlwaysReads(p, i) <==> Fits(p.class64, LoadOf(p, i))
  {
    if Fits(p.class64, LoadOf(p, i)) {
      forall q | SameShape(p, q) ensures PlanOk(q) && ReadRight(q, i) {
        SamePlan(p, q, i);
        FitsReadRight(q, i);
      }
    } else {
      var q := OverflowMisreads(p, i);
      Misread(q, ElfFile(q), i);
    }
  }

  // A guest that is read wrongly

  const BIG_PAGE: nat := 0xffff_e000

  /** A 32-bit guest whose memory ends at 0xfffff000 with a page of ones, and 8 KiB of notes. */
  function BigPlan(): Plan {
    Plan(false, false, [Block(0, 0xffff_f000, Zeros(BIG_PAGE) + seq<byte>(PAGE, _ => 1))], None,
         [Mapping(BIG_PAGE, 0, PAGE)], Zeros(52), Zeros(32), Zeros(40), Zeros(8192))
  }

  lemma BigLoad()
    ensures PlanOk(BigPlan()) && HeaderCount(BigPlan()) == 2
    ensures LoadOf(BigPlan(), 0) == Load(Mapping(BIG_PAGE, 0, PAGE), Some(0x1_0000_0074), PAGE)
    ensures First(BigPlan().blocks, None, BIG_PAGE) == 0
  {
    var p := BigPlan();
    assert Covers(None, p.blocks[0], BIG_PAGE);
  }

  lemma BigByte()
    ensures BigPlan().blocks[0].host[BIG_PAGE] == 1
  {
  }

  /** Byte 116 of the file, behind the program headers, is the first byte of the notes. */
  lemma BigNotes()
    requires PlanOk(BigPlan()) && HeaderCount(BigPlan()) == 2
    ensures |ElfFile(BigPlan())| > 116 && ElfFile(BigPlan())[116] == 0
  {
    var p := BigPlan();
    var bytes := LoadBytes(Header(p), LoadsFor(p));
    LoadBytesLength(Header(p), false, LoadsFor(p));
    ByteBehind(p.ehdr, p.noteHeader, bytes, SectionBytes(p), p.notes, Memory(p.blocks, p.filter));
  }

  lemma ByteBehind(a: seq<byte>, b: seq<byte>, c: seq<byte>, d: seq<byte>, e: seq<byte>, f: seq<byte>)
    requires d == [] && e != []
    ensures |a + b + c + d + e + f| > |a| + |b| + |c| && (a + b + c + d + e + f)[|a| + |b| + |c|] == e[0]
  {
  }

  lemma BigHeader(file: seq<byte>, l: Load)
    requires HeaderIs(false, false, file, 0, l) && l.offset == Some(0x1_0000_0074) && l.filesz == PAGE
    ensures ReadOffset(false, false, file, 0) == 116 && ReadFilesz(false, false, file, 0) == PAGE
  {
    OffsetTruncated(false, false, file, 0, l);
    FileszKept(false, false, file, 0, l);
  }

  /** Blocks below 4 GiB, so that the class is ELF32, do not keep the file below 4 GiB: the
      p_offset of the guest's last page leads into the notes, to other bytes. */
  lemma Elf32Overflows()
    ensures PlanOk(BigPlan()) && HeaderCount(BigPlan()) == 2 && WrongByte(BigPlan(), ElfFile(BigPlan()), 0)
    ensures var p, file := BigPlan(), ElfFile(BigPlan());
            && |file| > 116 && ReadOffset(false, false, file, 0) == 116 && ReadFilesz(false, false, file, 0) == PAGE
            && file[116] == 0 && p.blocks[0].host[BIG_PAGE] == 1
  {
    BigLoad();
    BigByte();
    BigNotes();
    HeaderOf(BigPlan(), 0);
    BigHeader(ElfFile(BigPlan()), LoadOf(BigPlan(), 0));
  }
}
