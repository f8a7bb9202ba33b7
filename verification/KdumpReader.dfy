/** A reader of the kdump-compressed format, and the proof that it recovers the guest. */
module KdumpReader {
  import opened Basics
  import opened GuestPages
  import opened DumpBytes
  import opened KdumpBitmap
  import opened KdumpPages
  import opened Kdump

  /** What a reader knows beside the file: byte order, header class, and a decompressor for each
      value of the flags in a descriptor. */
  datatype Format = Format(big: bool, class64: bool, decompress: (nat, seq<byte>) -> seq<byte>)

  /** The reader knows the format, and how to undo the compressor the dump was made with. */
  ghost predicate Knows(t: Format, e: Env) {
    && t.big == e.big && t.class64 == e.class64
    && Undoes(t, e.codec)
  }

  ghost predicate Undoes(t: Format, c: Codec) {
    forall s :: t.decompress(c.flag, s) == c.decompress(s)
  }

  function Word(f: File, t: Format, offset: nat, n: nat): nat {
    Decode(t.big, ReadBytes(f, offset, n))
  }

  function ReadStatus(f: File, t: Format): nat {
    Word(f, t, PrefixSize(t.class64), 4)
  }

  function ReadBlockSize(f: File, t: Format): nat {
    Word(f, t, PrefixSize(t.class64) + 4, 4)
  }

  function ReadSubHdrSize(f: File, t: Format): nat {
    Word(f, t, PrefixSize(t.class64) + 8, 4)
  }

  function ReadBitmapBlocks(f: File, t: Format): nat {
    Word(f, t, PrefixSize(t.class64) + 12, 4)
  }

  function ReadMaxMapnr(f: File, t: Format): nat {
    Word(f, t, PAGE + SubHeaderSize(t.class64) - 8, 8)
  }

  /** The bits set before `pfn`. */
  function Rank(f: File, bitmap: nat, pfn: nat): nat {
    if pfn == 0 then 0 else Rank(f, bitmap, pfn - 1) + (if FileBit(f, bitmap, pfn - 1) then 1 else 0)
  }

  function ReadDescriptor(f: File, t: Format, offset: nat): Descriptor {
    Descriptor(Word(f, t, offset, 8), Word(f, t, offset + 8, 4), Word(f, t, offset + 12, 4))
  }

  function ReadData(f: File, t: Format, d: Descriptor): seq<byte> {
    var bytes := ReadBytes(f, d.offset, d.size);
    if d.flags == 0 then bytes else t.decompress(d.flags, bytes)
  }

  function SecondBitmap(e: Env, len: nat): nat {
    BitmapPlace(e.class64, |e.note|) + len
  }

  /** Where the second bitmap and the page area start, by the header fields. */
  function BitmapStart(block: nat, sub: nat, bitmaps: nat): nat {
    (1 + sub + bitmaps / 2) * block
  }

  function PagesStart(block: nat, sub: nat, bitmaps: nat): nat {
    (1 + sub + bitmaps) * block
  }

  function BitmapFound(f: File, t: Format): nat {
    BitmapStart(ReadBlockSize(f, t), ReadSubHdrSize(f, t), ReadBitmapBlocks(f, t))
  }

  function PagesFound(f: File, t: Format): nat {
    PagesStart(ReadBlockSize(f, t), ReadSubHdrSize(f, t), ReadBitmapBlocks(f, t))
  }

  function DescriptorPos(pages: nat, k: nat): nat {
    pages + DESC_SIZE * k
  }

  /** The descriptor with the rank of the bit of `pfn`, and the data it points at. */
  function PageAt(f: File, t: Format, bitmap: nat, pages: nat, pfn: nat): seq<byte> {
    ReadData(f, t, ReadDescriptor(f, t, DescriptorPos(pages, Rank(f, bitmap, pfn))))
  }

  /** The page `pfn` as the file describes it. */
  function ReadPage(f: File, t: Format, pfn: nat): Option<seq<byte>> {
    if pfn >= ReadMaxMapnr(f, t) || !FileBit(f, BitmapFound(f, t), pfn) then None
    else Some(PageAt(f, t, BitmapFound(f, t), PagesFound(f, t), pfn))
  }

  // Header fields

  lemma WordRead(f: File, t: Format, offset: nat, s: seq<byte>, a: nat, n: nat, v: nat)
    requires Holds(f, offset, s) && a + n <= |s| && s[a..a + n] == Encode(t.big, n, v) && v < Pow256(n)
    ensures Word(f, t, offset + a, n) == v
  {
    HoldsRead(f, offset, s, a, n);
    DecodeEncode(t.big, n, v);
  }

  lemma HeaderFields(f: File, t: Format, e: Env, maxMapnr: nat)
    requires HeaderBlocksAt(f, e, maxMapnr) && EnvOk(e) && t.big == e.big && t.class64 == e.class64
    ensures ReadStatus(f, t) == e.codec.flag && ReadBlockSize(f, t) == PAGE
    ensures ReadSubHdrSize(f, t) == SubHdrBlocks(e.class64, |e.note|)
    ensures ReadBitmapBlocks(f, t) == BitmapBlocks(BitmapLen(maxMapnr))
    ensures Word(f, t, PrefixSize(t.class64) + 16, 4) == if maxMapnr < U32 then maxMapnr else U32 - 1
    ensures Word(f, t, PrefixSize(t.class64) + 36, 4) == e.nrCpus
  {
    WordSizes();
    HeaderSlices(e, maxMapnr);
    var h, p := Header(e, maxMapnr), PrefixSize(e.class64);
    WordRead(f, t, 0, h, p, 4, e.codec.flag);
    WordRead(f, t, 0, h, p + 4, 4, PAGE);
    WordRead(f, t, 0, h, p + 16, 4, if maxMapnr < U32 then maxMapnr else U32 - 1);
    WordRead(f, t, 0, h, p + 36, 4, e.nrCpus);
    WordRead(f, t, 0, h, p + 8, 4, SubHdrBlocks(e.class64, |e.note|));
    WordRead(f, t, 0, h, p + 12, 4, BitmapBlocks(BitmapLen(maxMapnr)));
  }

  /** Signature, version, utsname and timestamp come first. */
  lemma PrefixRead(f: File, e: Env, maxMapnr: nat)
    requires HeaderBlocksAt(f, e, maxMapnr)
    ensures ReadBytes(f, 0, |e.prefix|) == e.prefix
  {
    HoldsRead(f, 0, Header(e, maxMapnr), 0, |e.prefix|);
    assert Header(e, maxMapnr)[0..|e.prefix|] == e.prefix;
  }

  lemma HeaderSlices(e: Env, maxMapnr: nat)
    ensures var h, p := Header(e, maxMapnr), |e.prefix|;
            && h[p..p + 4] == Encode(e.big, 4, e.codec.flag)
            && h[p + 4..p + 4 + 4] == Encode(e.big, 4, PAGE)
            && h[p + 16..p + 16 + 4] == Encode(e.big, 4, if maxMapnr < U32 then maxMapnr else U32 - 1)
            && h[p + 36..p + 36 + 4] == Encode(e.big, 4, e.nrCpus)
            && h[p + 8..p + 8 + 4] == Encode(e.big, 4, SubHdrBlocks(e.class64, |e.note|))
            && h[p + 12..p + 12 + 4] == Encode(e.big, 4, BitmapBlocks(BitmapLen(maxMapnr)))
  {
  }

  lemma SubHeaderFields(f: File, t: Format, e: Env, maxMapnr: nat)
    requires HeaderBlocksAt(f, e, maxMapnr) && EnvOk(e) && t.big == e.big && t.class64 == e.class64 && maxMapnr < U64
    ensures ReadMaxMapnr(f, t) == maxMapnr
  {
    WordSizes();
    var h, at := SubHeader(e, maxMapnr), SubHeaderSize(e.class64) - 8;
    assert h[at..at + 8] == Encode(e.big, 8, maxMapnr);
    WordRead(f, t, PAGE, h, at, 8, maxMapnr);
  }

  /** The notes lie where the sub-header says, and nowhere else. */
  lemma NotesRead(f: File, t: Format, e: Env, maxMapnr: nat)
    requires HeadersAt(f, e, maxMapnr) && EnvOk(e) && t.big == e.big && t.class64 == e.class64
    ensures var offset := Word(f, t, PAGE + (if t.class64 then 48 else 32), 8);
            var size := if t.class64 then Word(f, t, PAGE + 56, 8) else Word(f, t, PAGE + 40, 4);
            offset == PAGE + SubHeaderSize(e.class64) && size == |e.note| && ReadBytes(f, offset, size) == e.note
    ensures Word(f, t, PAGE + (if t.class64 then 8 else 4), 4) == DUMP_LEVEL
  {
    WordSizes();
    var h, at := SubHeader(e, maxMapnr), PAGE + SubHeaderSize(e.class64);
    SubHeaderSlices(e, maxMapnr);
    WordRead(f, t, PAGE, h, if e.class64 then 8 else 4, 4, DUMP_LEVEL);
    if e.class64 {
      WordRead(f, t, PAGE, h, 48, 8, at);
      WordRead(f, t, PAGE, h, 56, 8, |e.note|);
    } else {
      WordRead(f, t, PAGE, h, 32, 8, at);
      WordRead(f, t, PAGE, h, 40, 4, |e.note|);
    }
    HoldsRead(f, at, e.note, 0, |e.note|);
    assert e.note[0..|e.note|] == e.note;
  }

  lemma SubHeaderSlices(e: Env, maxMapnr: nat)
    ensures var h, at := SubHeader(e, maxMapnr), PAGE + SubHeaderSize(e.class64);
            var level := if e.class64 then 8 else 4;
            && h[level..level + 4] == Encode(e.big, 4, DUMP_LEVEL)
            && if e.class64 then h[48..48 + 8] == Encode(e.big, 8, at) && h[56..56 + 8] == Encode(e.big, 8, |e.note|)
               else h[32..32 + 8] == Encode(e.big, 8, at) && h[40..40 + 4] == Encode(e.big, 4, |e.note|)
  {
  }

  // Rank

  ghost predicate Rising(pages: seq<Page>) {
    forall i, j :: 0 <= i < j < |pages| ==> pages[i].pfn < pages[j].pfn
  }

  /** Exactly the first `k` pages lie below `pfn`. */
  ghost predicate Before(pages: seq<Page>, pfn: nat, k: nat) {
    k <= |pages| && forall i :: 0 <= i < |pages| ==> (pages[i].pfn < pfn <==> i < k)
  }

  lemma BeforeStep(pages: seq<Page>, pfn: nat, k: nat)
    requires Rising(pages) && Before(pages, pfn + 1, k)
    ensures pfn in Frames(pages) ==> k > 0 && Before(pages, pfn, k - 1)
    ensures pfn !in Frames(pages) ==> Before(pages, pfn, k)
  {
    if pfn in Frames(pages) {
      var i :| 0 <= i < |pages| && pages[i].pfn == pfn;
      assert i < k && (i + 1 < |pages| ==> pages[i].pfn < pages[i + 1].pfn);
    } else {
      forall i | 0 <= i < |pages| ensures pages[i].pfn < pfn <==> i < k {
        assert pages[i] in pages;
      }
    }
  }

  /** The number of bits before `pfn` is the number of pages below it. */
  lemma {:induction false} RankOfPage(f: File, bitmap: nat, n: nat, pages: seq<Page>, k: nat, pfn: nat)
    requires BitmapAt(f, bitmap, n, Frames(pages)) && pfn <= n * PFN_BUFBITMAP
    requires Rising(pages) && Before(pages, pfn, k)
    ensures Rank(f, bitmap, pfn) == k
    decreases pfn
  {
    if pfn > 0 {
      var q := pfn - 1;
      BeforeStep(pages, q, k);
      assert FileBit(f, bitmap, q) <==> q in Frames(pages);
      RankOfPage(f, bitmap, n, pages, if q in Frames(pages) then k - 1 else k, q);
    } else {
      assert |pages| > 0 ==> (pages[0].pfn < pfn <==> 0 < k);
    }
  }

  // Descriptors and data

  lemma {:induction false} DescriptorPlace(m: Plan, pages: seq<Page>, n: nat, k: nat)
    requires k < n <= |pages|
    ensures DescBytes(m, pages, n)[DESC_SIZE * k..DESC_SIZE * k + DESC_SIZE]
         == DescriptorBytes(m.big, PageDescriptor(m, pages, k))
  {
    var head, last := DescBytes(m, pages, n - 1), DescriptorBytes(m.big, PageDescriptor(m, pages, n - 1));
    if k < n - 1 {
      DescriptorPlace(m, pages, n - 1, k);
      SliceExtend(head, last, DESC_SIZE * k, DESC_SIZE * k + DESC_SIZE);
    } else {
      SliceEnd(head, last, DESC_SIZE * k, DESC_SIZE * k + DESC_SIZE);
    }
  }

  lemma SliceEnd(a: seq<byte>, b: seq<byte>, i: nat, j: nat)
    requires i == |a| && j == |a| + |b|
    ensures (a + b)[i..j] == b
  {
  }

  lemma {:induction false} DataLength(c: Codec, pages: seq<Page>, k: nat)
    requires k <= |pages| && forall i :: 0 <= i < |pages| ==> |pages[i].data| == PAGE
    ensures |DataBytes(c, pages, k)| <= PAGE * (k + 1)
  {
    if k > 0 {
      DataLength(c, pages, k - 1);
    }
  }

  lemma DescriptorFields(big: bool, d: Descriptor)
    ensures var s := DescriptorBytes(big, d);
            && s[0..8] == Encode(big, 8, d.offset)
            && s[8..12] == Encode(big, 4, d.size)
            && s[12..16] == Encode(big, 4, d.flags)
  {
  }

  /** A descriptor in the file reads back. */
  lemma DescriptorRead(f: File, t: Format, at: nat, d: Descriptor)
    requires Holds(f, at, DescriptorBytes(t.big, d)) && d.offset < U64 && d.size < U32 && d.flags < U32
    ensures ReadDescriptor(f, t, at) == d
  {
    var s := DescriptorBytes(t.big, d);
    DescriptorFields(t.big, d);
    FieldsRead(f, t, at, s, d);
  }

  lemma FieldsRead(f: File, t: Format, at: nat, s: seq<byte>, d: Descriptor)
    requires Holds(f, at, s) && |s| == DESC_SIZE && d.offset < U64 && d.size < U32 && d.flags < U32
    requires s[0..8] == Encode(t.big, 8, d.offset)
    requires s[8..12] == Encode(t.big, 4, d.size) && s[12..16] == Encode(t.big, 4, d.flags)
    ensures ReadDescriptor(f, t, at) == d
  {
    WordSizes();
    WordRead(f, t, at, s, 0, 8, d.offset);
    WordRead(f, t, at, s, 8, 4, d.size);
    WordRead(f, t, at, s, 12, 4, d.flags);
  }

  lemma DescriptorHeld(f: File, at: nat, all: seq<byte>, k: nat, s: seq<byte>)
    requires Holds(f, at, all) && DESC_SIZE * k + DESC_SIZE <= |all|
    requires s == all[DESC_SIZE * k..DESC_SIZE * k + DESC_SIZE]
    ensures Holds(f, DescriptorPos(at, k), s)
  {
  }

  /** The data behind the descriptor of page `k` is the page. */
  lemma DataRead(f: File, t: Format, m: Plan, pages: seq<Page>, k: nat)
    requires k < |pages| && |pages[k].data| == PAGE && CodecOk(m.codec) && Undoes(t, m.codec)
    requires Holds(f, m.dataStart, DataBytes(m.codec, pages, |pages|))
    ensures ReadData(f, t, PageDescriptor(m, pages, k)) == pages[k].data
  {
    if IsZero(pages[k].data) {
      ZeroRead(f, m, pages, k);
    } else {
      var before, bytes := DataBytes(m.codec, pages, k), Payload(m.codec, pages[k].data);
      PayloadPrefix(m, pages, k);
      BytesFound(f, m.dataStart, DataBytes(m.codec, pages, |pages|), before, bytes);
      PayloadRead(f, t, m.codec, PageDescriptor(m, pages, k), pages[k].data);
    }
  }

  lemma ZeroRead(f: File, m: Plan, pages: seq<Page>, k: nat)
    requires k < |pages| && |pages[k].data| == PAGE && IsZero(pages[k].data)
    requires Holds(f, m.dataStart, DataBytes(m.codec, pages, |pages|))
    ensures ReadBytes(f, m.dataStart, PAGE) == pages[k].data
  {
    var all := DataBytes(m.codec, pages, |pages|);
    DataPrefix(m.codec, pages, |pages|, 0);
    BytesFound(f, m.dataStart, all, [], ZeroPage());
    assert ZeroPage() == pages[k].data;
  }

  lemma PayloadRead(f: File, t: Format, c: Codec, d: Descriptor, data: seq<byte>)
    requires CodecOk(c) && Undoes(t, c) && |data| == PAGE
    requires d.flags == if Compressed(c, data) then c.flag else 0
    requires ReadBytes(f, d.offset, d.size) == Payload(c, data)
    ensures ReadData(f, t, d) == data
  {
  }

  lemma PayloadPrefix(m: Plan, pages: seq<Page>, k: nat)
    requires k < |pages| && !IsZero(pages[k].data)
    ensures DataBytes(m.codec, pages, k) + Payload(m.codec, pages[k].data) <= DataBytes(m.codec, pages, |pages|)
  {
    DataPrefix(m.codec, pages, |pages|, k + 1);
    DataNext(m, pages, k);
  }

  lemma BytesFound(f: File, base: nat, all: seq<byte>, before: seq<byte>, bytes: seq<byte>)
    requires Holds(f, base, all) && before + bytes <= all
    ensures ReadBytes(f, base + |before|, |bytes|) == bytes
  {
  }

  lemma {:induction false} PfnAtLeast(pages: seq<Page>, k: nat)
    requires Rising(pages) && k < |pages|
    ensures pages[k].pfn >= k
  {
    if k > 0 {
      PfnAtLeast(pages, k - 1);
      assert pages[k - 1].pfn < pages[k].pfn;
    }
  }

  // Sizes. Below 4 GiB of metadata no field of a descriptor overflows.

  lemma Sizes(e: Env, blocks: seq<Block>)
    requires BlocksOk(blocks) && blocks != [] && Fits(e, blocks)
    ensures |Pages(blocks)| <= MaxMapnr(blocks) < 0x4_0000_0000
    ensures MaxMapnr(blocks) <= BitmapLen(MaxMapnr(blocks)) / BUFSIZE_BITMAP * PFN_BUFBITMAP
    ensures DumpPlan(e, blocks).dataStart < 0x80_0000_0000
  {
    var pages := Pages(blocks);
    PagesRise(blocks);
    LastPage(blocks);
    PfnAtLeast(pages, |pages| - 1);
  }

  lemma DescriptorFits(e: Env, blocks: seq<Block>, k: nat)
    requires BlocksOk(blocks) && blocks != [] && Fits(e, blocks) && EnvOk(e) && k < |Pages(blocks)|
    ensures var d := PageDescriptor(DumpPlan(e, blocks), Pages(blocks), k);
            d.offset < U64 && d.size < U32 && d.flags < U32
  {
    Sizes(e, blocks);
    DataLength(e.codec, Pages(blocks), k);
  }

  /** The descriptor of page `k` reads back from the vmcore. */
  lemma PageDescriptorRead(f: File, t: Format, m: Plan, pages: seq<Page>, at: nat, k: nat)
    requires k < |pages| && Holds(f, at, DescBytes(m, pages, |pages|)) && t.big == m.big
    requires var d := PageDescriptor(m, pages, k); d.offset < U64 && d.size < U32 && d.flags < U32
    ensures ReadDescriptor(f, t, DescriptorPos(at, k)) == PageDescriptor(m, pages, k)
  {
    DescriptorPlace(m, pages, |pages|, k);
    DescriptorHeld(f, at, DescBytes(m, pages, |pages|), k, DescriptorBytes(m.big, PageDescriptor(m, pages, k)));
    DescriptorRead(f, t, DescriptorPos(at, k), PageDescriptor(m, pages, k));
  }

  /** What the header fields say, if the page area starts below 4 GiB. */
  lemma FieldsMean(e: Env, len: nat)
    requires PagePlace(e.class64, |e.note|, len) < U32 && len % PAGE == 0
    ensures BitmapStart(PAGE, SubHdrBlocks(e.class64, |e.note|), BitmapBlocks(len)) == SecondBitmap(e, len)
    ensures PagesStart(PAGE, SubHdrBlocks(e.class64, |e.note|), BitmapBlocks(len)) ==
            PagePlace(e.class64, |e.note|, len)
  {
    LayoutFits(e.class64, |e.note|, len);
    RoundedUp(len);
  }


  /** What the reader finds: the layout of the writer. */
  lemma LayoutRead(f: File, t: Format, e: Env, maxMapnr: nat)
    requires PagePlace(e.class64, |e.note|, BitmapLen(maxMapnr)) < U32 && EnvOk(e) && maxMapnr < U64
    requires HeadersAt(f, e, maxMapnr) && t.big == e.big && t.class64 == e.class64
    ensures BitmapFound(f, t) == SecondBitmap(e, BitmapLen(maxMapnr))
    ensures PagesFound(f, t) == PagePlace(e.class64, |e.note|, BitmapLen(maxMapnr))
    ensures ReadMaxMapnr(f, t) == maxMapnr
  {
    HeaderFields(f, t, e, maxMapnr);
    SubHeaderFields(f, t, e, maxMapnr);
    LenAligned(maxMapnr);
    FieldsMean(e, BitmapLen(maxMapnr));
  }

  /** A page of the guest, at place `k` of the iteration, is found. */
  lemma PresentPage(f: File, t: Format, m: Plan, pages: seq<Page>, bitmap: nat, n: nat, at: nat, k: nat)
    requires Rising(pages) && k < |pages| && |pages[k].data| == PAGE && pages[k].pfn < n * PFN_BUFBITMAP
    requires BitmapAt(f, bitmap, n, Frames(pages)) && Holds(f, at, DescBytes(m, pages, |pages|))
    requires Holds(f, m.dataStart, DataBytes(m.codec, pages, |pages|))
    requires t.big == m.big && Undoes(t, m.codec) && CodecOk(m.codec)
    requires var d := PageDescriptor(m, pages, k); d.offset < U64 && d.size < U32 && d.flags < U32
    ensures PageAt(f, t, bitmap, at, pages[k].pfn) == pages[k].data
  {
    RankOfPage(f, bitmap, n, pages, k, pages[k].pfn);
    PageDescriptorRead(f, t, m, pages, at, k);
    DataRead(f, t, m, pages, k);
  }

  /** The bits of the second bitmap are the pages of the guest. */
  lemma BitShowsPage(f: File, e: Env, blocks: seq<Block>, pfn: nat)
    requires BlocksOk(blocks) && blocks != [] && Fits(e, blocks) && BitmapsAt(f, e, blocks)
    requires pfn < MaxMapnr(blocks)
    ensures FileBit(f, SecondBitmap(e, BitmapLen(MaxMapnr(blocks))), pfn) <==> GuestPage(blocks, pfn).Some?
  {
    Sizes(e, blocks);
    FrameOfPage(blocks, pfn);
  }

  lemma FrameOfPage(blocks: seq<Block>, pfn: nat)
    requires BlocksOk(blocks)
    ensures pfn in Frames(Pages(blocks)) <==> GuestPage(blocks, pfn).Some?
  {
    PagesAreGuestPages(blocks, pfn);
  }

  /** Page `k` of the iteration reads back. */
  lemma PageRead(f: File, t: Format, e: Env, blocks: seq<Block>, k: nat)
    requires BlocksOk(blocks) && blocks != [] && Fits(e, blocks) && EnvOk(e) && k < |Pages(blocks)|
    requires Vmcore(f, e, blocks) && Knows(t, e)
    ensures var len := BitmapLen(MaxMapnr(blocks));
            PageAt(f, t, SecondBitmap(e, len), PagePlace(e.class64, |e.note|, len), Pages(blocks)[k].pfn) ==
            Pages(blocks)[k].data
  {
    var pages, len := Pages(blocks), BitmapLen(MaxMapnr(blocks));
    PagesRise(blocks);
    LastPage(blocks);
    Sizes(e, blocks);
    DescriptorFits(e, blocks, k);
    PresentPage(f, t, DumpPlan(e, blocks), pages, SecondBitmap(e, len), len / BUFSIZE_BITMAP,
                PagePlace(e.class64, |e.note|, len), k);
  }

  /** Round trip: from the vmcore of a guest the reader gets back each page of the guest,
      and finds no page the guest does not have. */
  lemma RoundTrip(f: File, t: Format, e: Env, blocks: seq<Block>, pfn: nat)
    requires BlocksOk(blocks) && blocks != [] && Fits(e, blocks) && EnvOk(e)
    requires Vmcore(f, e, blocks) && Knows(t, e)
    ensures ReadPage(f, t, pfn) == GuestPage(blocks, pfn)
  {
    Sizes(e, blocks);
    LayoutRead(f, t, e, MaxMapnr(blocks));
    PfnBelowMax(blocks, pfn);
    if pfn < MaxMapnr(blocks) {
      BitShowsPage(f, e, blocks, pfn);
      if GuestPage(blocks, pfn).Some? {
        PagesAreGuestPages(blocks, pfn);
        var k :| 0 <= k < |Pages(blocks)| && Pages(blocks)[k] == Page(pfn, GuestPage(blocks, pfn).value);
        PageRead(f, t, e, blocks, k);
      }
    }
  }

  lemma PfnBelowMax(blocks: seq<Block>, pfn: nat)
    requires BlocksOk(blocks) && blocks != []
    ensures GuestPage(blocks, pfn).Some? ==> pfn < MaxMapnr(blocks)
  {
    PagesAreGuestPages(blocks, pfn);
    PagesRise(blocks);
    LastPage(blocks);
  }

  // Beyond 4 GiB

  lemma {:induction false} DecodeZeros(big: bool, n: nat)
    ensures Decode(big, Zeros(n)) == 0
  {
    if n > 0 {
      DecodeZeros(big, n - 1);
      assert Zeros(n)[..n - 1] == Zeros(n - 1) && Zeros(n)[1..] == Zeros(n - 1);
    }
  }

  lemma HoleWord(f: File, t: Format, offset: nat, n: nat)
    requires forall p: nat :: offset <= p < offset + n ==> f(p) == 0
    ensures Word(f, t, offset, n) == 0
  {
    DecodeZeros(t.big, n);
    assert ReadBytes(f, offset, n) == Zeros(n);
  }

  /** A descriptor in a hole of the file names no data. */
  lemma HoleDescriptor(f: File, t: Format, at: nat)
    requires forall p: nat :: p >= at ==> f(p) == 0
    ensures ReadData(f, t, ReadDescriptor(f, t, at)) == []
  {
    HoleWord(f, t, at, 8);
    HoleWord(f, t, at + 8, 4);
    HoleWord(f, t, at + 12, 4);
  }

  /** Where a reader looks for the descriptors nothing has been written. */
  lemma HoleAtPages(f0: File, f: File, t: Format, e: Env, blocks: seq<Block>)
    requires BlocksOk(blocks) && blocks != [] && EnvOk(e) && Short(e, blocks) && !Fits(e, blocks)
    requires (forall p :: f0(p) == 0) && Touched(f0, f, e, blocks) && t.big == e.big && t.class64 == e.class64
    ensures forall p: nat :: p >= PagesFound(f, t) ==> f(p) == 0
  {
    ShortEnd(e, blocks);
    PagesLooked(f, t, e, MaxMapnr(blocks));
  }

  /** By the header fields the page area starts where the format puts it. */
  lemma PagesLooked(f: File, t: Format, e: Env, maxMapnr: nat)
    requires HeaderBlocksAt(f, e, maxMapnr) && EnvOk(e) && t.big == e.big && t.class64 == e.class64
    requires BitmapPlace(e.class64, |e.note|) < U32
    requires PagePlace(e.class64, |e.note|, BitmapLen(maxMapnr)) < U32 * PAGE
    ensures PagesFound(f, t) == PagePlace(e.class64, |e.note|, BitmapLen(maxMapnr))
  {
    HeaderFields(f, t, e, maxMapnr);
    FieldsHold(e.class64, |e.note|, BitmapLen(maxMapnr));
  }

  /** No page of the guest is read back. */
  lemma PageLost(f0: File, f: File, t: Format, e: Env, blocks: seq<Block>, pfn: nat)
    requires BlocksOk(blocks) && blocks != [] && EnvOk(e) && Short(e, blocks) && !Fits(e, blocks)
    requires (forall p :: f0(p) == 0) && Touched(f0, f, e, blocks) && t.big == e.big && t.class64 == e.class64
    requires GuestPage(blocks, pfn).Some?
    ensures ReadPage(f, t, pfn) != GuestPage(blocks, pfn)
  {
    HoleAtPages(f0, f, t, e, blocks);
    HoleDescriptor(f, t, DescriptorPos(PagesFound(f, t), Rank(f, BitmapFound(f, t), pfn)));
  }

  lemma SomePage(blocks: seq<Block>) returns (pfn: nat)
    requires BlocksOk(blocks) && blocks != []
    ensures GuestPage(blocks, pfn).Some?
  {
    var n := |blocks| - 1;
    pfn := FirstPfn(blocks[n]);
  }

  /** Every page of the guest is read back, and no other. */
  ghost predicate ReadBack(f: File, t: Format, blocks: seq<Block>)
    requires BlocksOk(blocks)
  {
    forall pfn: nat :: ReadPage(f, t, pfn) == GuestPage(blocks, pfn)
  }

  /** A dump that succeeds, with its page area starting below 4 GiB, can be read back completely. A
      dump into an empty file whose page area starts later, but is not longer than 4 GiB, cannot. */
  method DumpGuest(out: Output, e: Env, blocks: seq<Block>, ghost t: Format) returns (ok: bool)
    requires BlocksOk(blocks) && blocks != [] && EnvOk(e) && Knows(t, e)
    modifies out
    ensures ok && Fits(e, blocks) ==> ReadBack(out.file, t, blocks)
    ensures ok && Short(e, blocks) && (forall p :: old(out.file)(p) == 0) ==>
              (ReadBack(out.file, t, blocks) <==> Fits(e, blocks))
    ensures Always(out.accepts) ==> ok
  {
    ghost var f0 := out.file;
    ok := CreateKdumpVmcore(out, e, blocks);
    if ok && Fits(e, blocks) {
      forall pfn: nat ensures ReadPage(out.file, t, pfn) == GuestPage(blocks, pfn) {
        RoundTrip(out.file, t, e, blocks, pfn);
      }
    } else if ok && Short(e, blocks) && forall p :: f0(p) == 0 {
      ghost var pfn := SomePage(blocks);
      PageLost(f0, out.file, t, e, blocks, pfn);
    }
  }
}
