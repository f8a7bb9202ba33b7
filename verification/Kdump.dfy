/** The kdump-compressed vmcore as a whole: its headers, the layout computed in 32-bit
    arithmetic, and the file written (dump.c). */
module Kdump {
  import opened Basics
  import opened GuestPages
  import opened DumpBytes
  import opened KdumpBitmap
  import opened KdumpPages

  const DUMP_LEVEL: nat := 1
  const U32: nat := 0x1_0000_0000
  const U64: nat := 0x1_0000_0000_0000_0000

  /** What the headers are made from, beside the blocks. */
  datatype Env = Env(big: bool, class64: bool, codec: Codec, prefix: seq<byte>, nrCpus: nat, note: seq<byte>)

  /** The length of signature, version, utsname and timestamp in disk_dump_header. */
  function PrefixSize(class64: bool): (n: nat)
    ensures n == if class64 then 424 else 412
  {
    8 + 4 + 6 * 65 + if class64 then 22 else 10
  }

  function SubHeaderSize(class64: bool): nat {
    if class64 then 104 else 80
  }

  ghost predicate EnvOk(e: Env) {
    && CodecOk(e.codec) && |e.prefix| == PrefixSize(e.class64)
    && e.nrCpus < U32 && |e.note| < if e.class64 then U64 else U32
  }

  // Layout. The C variables are uint32_t, so sums and products wrap at 2^32.

  /** sub_hdr_size */
  function SubHdrBlocks(class64: bool, note: nat): nat {
    ((SubHeaderSize(class64) + note) % U32 + PAGE - 1) % U32 / PAGE
  }

  /** bitmap_blocks */
  function BitmapBlocks(len: nat): nat {
    DivRoundUp(len, PAGE) * 2 % U32
  }

  /** offset_dump_bitmap */
  function OffsetBitmap(class64: bool, note: nat): nat {
    (1 + SubHdrBlocks(class64, note)) % U32 * PAGE % U32
  }

  /** offset_page */
  function OffsetPage(class64: bool, note: nat, len: nat): nat {
    (1 + SubHdrBlocks(class64, note) + BitmapBlocks(len)) % U32 * PAGE % U32
  }

  /** Where the format puts the bitmaps and the page area. */
  function BitmapPlace(class64: bool, note: nat): nat {
    (1 + DivRoundUp(SubHeaderSize(class64) + note, PAGE)) * PAGE
  }

  function PagePlace(class64: bool, note: nat, len: nat): nat {
    BitmapPlace(class64, note) + 2 * DivRoundUp(len, PAGE) * PAGE
  }

  /** The writer's offsets are those of the format exactly if the page area starts below 4 GiB. */
  lemma LayoutExact(class64: bool, note: nat, len: nat)
    ensures && OffsetBitmap(class64, note) == BitmapPlace(class64, note)
            && OffsetPage(class64, note, len) == PagePlace(class64, note, len)
            <==> PagePlace(class64, note, len) < U32
    ensures PagePlace(class64, note, len) < U32 ==>
              && SubHdrBlocks(class64, note) == DivRoundUp(SubHeaderSize(class64) + note, PAGE)
              && BitmapBlocks(len) == 2 * DivRoundUp(len, PAGE)
  {
    if PagePlace(class64, note, len) < U32 {
      LayoutFits(class64, note, len);
    }
  }

  lemma LayoutFits(class64: bool, note: nat, len: nat)
    requires PagePlace(class64, note, len) < U32
    ensures SubHdrBlocks(class64, note) == DivRoundUp(SubHeaderSize(class64) + note, PAGE)
    ensures BitmapBlocks(len) == 2 * DivRoundUp(len, PAGE)
    ensures OffsetBitmap(class64, note) == BitmapPlace(class64, note)
    ensures OffsetPage(class64, note, len) == PagePlace(class64, note, len)
  {
    var n := SubHeaderSize(class64) + note;
    var sub, bitmap := DivRoundUp(n, PAGE), 2 * DivRoundUp(len, PAGE);
    assert n + PAGE - 1 < sub * PAGE + PAGE;
    Unwrapped(n);
    Unwrapped(n % U32 + PAGE - 1);
    Unwrapped(bitmap);
    Unwrapped(1 + sub);
    Unwrapped((1 + sub) * PAGE);
    Unwrapped(1 + sub + bitmap);
    Unwrapped((1 + sub + bitmap) * PAGE);
  }

  /** The page area does not overlap the bitmaps exactly if it starts below 4 GiB. */
  lemma OverlapExact(class64: bool, note: nat, maxMapnr: nat)
    requires BitmapPlace(class64, note) < U32
    ensures OffsetPage(class64, note, BitmapLen(maxMapnr)) >= OffsetBitmap(class64, note) + 2 * BitmapLen(maxMapnr)
            <==> PagePlace(class64, note, BitmapLen(maxMapnr)) < U32
  {
    var len := BitmapLen(maxMapnr);
    LayoutFits(class64, note, 0);
    LenAligned(maxMapnr);
    RoundedUp(len);
    if PagePlace(class64, note, len) < U32 {
      LayoutFits(class64, note, len);
    }
  }

  /** The header fields count the blocks right, and the offset of the page area is cut. */
  lemma FieldsHold(class64: bool, note: nat, len: nat)
    requires BitmapPlace(class64, note) < U32 && PagePlace(class64, note, len) < U32 * PAGE
    ensures SubHdrBlocks(class64, note) == DivRoundUp(SubHeaderSize(class64) + note, PAGE)
    ensures BitmapBlocks(len) == 2 * DivRoundUp(len, PAGE) && OffsetBitmap(class64, note) == BitmapPlace(class64, note)
    ensures OffsetPage(class64, note, len) == PagePlace(class64, note, len) % U32
  {
    LayoutFits(class64, note, 0);
    Unwrapped(2 * DivRoundUp(len, PAGE));
    Unwrapped(1 + SubHdrBlocks(class64, note) + 2 * DivRoundUp(len, PAGE));
  }

  lemma Unwrapped(n: nat)
    ensures n < U32 ==> n % U32 == n
  {
  }

  /** A guest that ends at 64 TiB: the page area is put on top of the first bitmap. */
  lemma BigGuestOverlaps(class64: bool, note: nat)
    ensures var len := BitmapLen(0x4_0000_0000);
            OffsetPage(class64, note, len) == OffsetBitmap(class64, note) && len == 0x8000_0000
  {
    assert BitmapLen(0x4_0000_0000) == 0x8000_0000;
    assert BitmapBlocks(0x8000_0000) == 0x10_0000;
  }

  // Headers

  /** disk_dump_header, up to block_size and from max_mapnr on. */
  function HeaderHead(e: Env): (s: seq<byte>)
    ensures |s| == |e.prefix| + 8
  {
    e.prefix + Encode(e.big, 4, e.codec.flag) + Encode(e.big, 4, PAGE)
  }

  function HeaderTail(e: Env, maxMapnr: nat): (s: seq<byte>)
    ensures |s| == 24
  {
    Encode(e.big, 4, if maxMapnr < U32 then maxMapnr else U32 - 1) + Zeros(16) + Encode(e.big, 4, e.nrCpus)
  }

  function Header(e: Env, maxMapnr: nat): (s: seq<byte>)
    ensures |s| == |e.prefix| + 40
  {
    HeaderHead(e) + Encode(e.big, 4, SubHdrBlocks(e.class64, |e.note|))
    + Encode(e.big, 4, BitmapBlocks(BitmapLen(maxMapnr))) + HeaderTail(e, maxMapnr)
  }

  /** kdump_sub_header: physical base 0, dump level 1, the place of the notes, max_mapnr_64. */
  function SubHeader(e: Env, maxMapnr: nat): (s: seq<byte>)
    ensures |s| == SubHeaderSize(e.class64)
  {
    if e.class64 then
      Zeros(8) + Encode(e.big, 4, DUMP_LEVEL) + Zeros(36) + Encode(e.big, 8, PAGE + SubHeaderSize(true))
      + Encode(e.big, 8, |e.note|) + Zeros(32) + Encode(e.big, 8, maxMapnr)
    else
      Zeros(4) + Encode(e.big, 4, DUMP_LEVEL) + Zeros(24) + Encode(e.big, 8, PAGE + SubHeaderSize(false))
      + Encode(e.big, 4, |e.note|) + Zeros(28) + Encode(e.big, 8, maxMapnr)
  }

  ghost predicate HeaderBlocksAt(f: File, e: Env, maxMapnr: nat) {
    Holds(f, 0, Header(e, maxMapnr)) && Holds(f, PAGE, SubHeader(e, maxMapnr))
  }

  ghost predicate HeadersAt(f: File, e: Env, maxMapnr: nat) {
    && HeaderBlocksAt(f, e, maxMapnr)
    && Holds(f, PAGE + SubHeaderSize(e.class64), e.note)
  }

  /** create_header32 and create_header64 */
  method WriteDumpHeader(out: Output, e: Env, maxMapnr: nat) returns (ok: bool)
    requires |e.prefix| == PrefixSize(e.class64)
    modifies out
    ensures ok ==> HeadersAt(out.file, e, maxMapnr)
    ensures Within(old(out.file), out.file, 0, PAGE + SubHeaderSize(e.class64) + |e.note|)
    ensures Always(out.accepts) ==> ok
  {
    ok := WriteHeaders(out, Header(e, maxMapnr), SubHeader(e, maxMapnr), e.note);
  }

  method WriteHeaders(out: Output, header: seq<byte>, sub: seq<byte>, note: seq<byte>) returns (ok: bool)
    requires |header| <= PAGE
    modifies out
    ensures ok ==> Holds(out.file, 0, header) && Holds(out.file, PAGE, sub) && Holds(out.file, PAGE + |sub|, note)
    ensures Within(old(out.file), out.file, 0, PAGE + |sub| + |note|)
    ensures Always(out.accepts) ==> ok
  {
    ok := out.WriteBuffer(0, header);
    if !ok {
      return;
    }
    ok := out.WriteBuffer(PAGE, sub);
    if !ok {
      return;
    }
    ok := out.WriteBuffer(PAGE + |sub|, note);
  }

  // The file

  function DumpPlan(e: Env, blocks: seq<Block>): Plan
    requires BlocksOk(blocks) && blocks != []
  {
    Plan(e.big, e.codec, PagePlace(e.class64, |e.note|, BitmapLen(MaxMapnr(blocks))) + DESC_SIZE * |Pages(blocks)|)
  }

  ghost predicate BitmapsAt(f: File, e: Env, blocks: seq<Block>)
    requires BlocksOk(blocks) && blocks != []
  {
    BitmapPairAt(f, BitmapPlace(e.class64, |e.note|), BitmapLen(MaxMapnr(blocks)), Frames(Pages(blocks)))
  }

  ghost predicate PagesHeld(f: File, e: Env, blocks: seq<Block>)
    requires BlocksOk(blocks) && blocks != []
  {
    var pages, m := Pages(blocks), DumpPlan(e, blocks);
    && Holds(f, PagePlace(e.class64, |e.note|, BitmapLen(MaxMapnr(blocks))), DescBytes(m, pages, |pages|))
    && Holds(f, m.dataStart, DataBytes(e.codec, pages, |pages|))
  }

  /** Every part of the vmcore is in its place in the file. */
  ghost predicate Vmcore(f: File, e: Env, blocks: seq<Block>)
    requires BlocksOk(blocks) && blocks != []
  {
    HeadersAt(f, e, MaxMapnr(blocks)) && BitmapsAt(f, e, blocks) && PagesHeld(f, e, blocks)
  }

  /** The page area starts below 4 GiB. */
  predicate Fits(e: Env, blocks: seq<Block>)
    requires blocks != []
  {
    PagePlace(e.class64, |e.note|, BitmapLen(MaxMapnr(blocks))) < U32
  }

  /** The offsets the header functions leave for the parts that follow. */
  method Offsets(e: Env, blocks: seq<Block>) returns (bitmapAt: nat, pageAt: nat)
    requires blocks != []
    ensures Fits(e, blocks) <==> bitmapAt == BitmapPlace(e.class64, |e.note|) &&
                                 pageAt == PagePlace(e.class64, |e.note|, BitmapLen(MaxMapnr(blocks)))
    ensures bitmapAt == OffsetBitmap(e.class64, |e.note|)
    ensures pageAt == OffsetPage(e.class64, |e.note|, BitmapLen(MaxMapnr(blocks)))
  {
    var len := BitmapLen(MaxMapnr(blocks));
    LayoutExact(e.class64, |e.note|, len);
    return OffsetBitmap(e.class64, |e.note|), OffsetPage(e.class64, |e.note|, len);
  }

  /** The page area is not longer than 4 GiB, its cut offset does not hit the two header blocks,
      and the block counts fit their header fields. */
  predicate Short(e: Env, blocks: seq<Block>)
    requires BlocksOk(blocks) && blocks != []
  {
    var len := BitmapLen(MaxMapnr(blocks));
    && AreaSize(e.codec, Pages(blocks)) <= U32 && 2 * PAGE <= OffsetPage(e.class64, |e.note|, len)
    && BitmapPlace(e.class64, |e.note|) < U32 && PagePlace(e.class64, |e.note|, len) < U32 * PAGE
  }

  function Max(a: nat, b: nat): nat {
    if a < b then b else a
  }

  /** Where the last of notes, bitmaps and page area ends. */
  function FileEnd(e: Env, blocks: seq<Block>): nat
    requires BlocksOk(blocks) && blocks != []
  {
    var len, note := BitmapLen(MaxMapnr(blocks)), |e.note|;
    Max(PAGE + SubHeaderSize(e.class64) + note,
        Max(OffsetBitmap(e.class64, note) + 2 * len,
            OffsetPage(e.class64, note, len) + AreaSize(e.codec, Pages(blocks))))
  }

  /** A short page area with a cut offset ends before its place in the format. */
  lemma ShortEnd(e: Env, blocks: seq<Block>)
    requires BlocksOk(blocks) && blocks != [] && |e.prefix| == PrefixSize(e.class64)
    requires Short(e, blocks) && !Fits(e, blocks)
    ensures OffsetBitmap(e.class64, |e.note|) >= 2 * PAGE
    ensures FileEnd(e, blocks) <= PagePlace(e.class64, |e.note|, BitmapLen(MaxMapnr(blocks)))
  {
    var len := BitmapLen(MaxMapnr(blocks));
    FieldsHold(e.class64, |e.note|, len);
    Places(e, MaxMapnr(blocks));
    CutBelow(PagePlace(e.class64, |e.note|, len), AreaSize(e.codec, Pages(blocks)));
  }

  lemma CutBelow(place: nat, size: nat)
    requires place >= U32 && size <= U32
    ensures place % U32 + size <= place
  {
  }

  /** A guest with a single page that ends at 64 TiB is of this kind. */
  lemma FarGuest(e: Env, data: seq<byte>)
    requires |data| == PAGE && BitmapPlace(e.class64, |e.note|) < U32
    ensures var blocks := [Block(0x3fff_ffff_f000, 0x4000_0000_0000, data)];
            BlocksOk(blocks) && Short(e, blocks) && !Fits(e, blocks)
  {
    var blocks := [Block(0x3fff_ffff_f000, 0x4000_0000_0000, data)];
    var len, pages := BitmapLen(MaxMapnr(blocks)), Pages(blocks);
    assert MaxMapnr(blocks) == 0x4_0000_0000;
    BigGuestOverlaps(e.class64, |e.note|);
    LayoutFits(e.class64, |e.note|, 0);
    assert blocks[..0] == [] && PageCount(blocks[0]) == 1;
    assert Pages(blocks) == Pages(blocks[..0]) + BlockPages(blocks[0]);
    assert |pages| == 1;
    assert DataBytes(e.codec, pages, 0) == ZeroPage();
    assert |DataBytes(e.codec, pages, 1)| <= 2 * PAGE;
  }

  /** Whatever the offsets: behind the notes, the bitmaps and the page area the file `f0` is as
      before, and the header blocks are there if the page area is put behind them. */
  ghost predicate Touched(f0: File, f: File, e: Env, blocks: seq<Block>)
    requires BlocksOk(blocks) && blocks != []
  {
    var max, note := MaxMapnr(blocks), |e.note|;
    var bitmapAt, pageAt := OffsetBitmap(e.class64, note), OffsetPage(e.class64, note, BitmapLen(max));
    && (bitmapAt >= 2 * PAGE && pageAt >= 2 * PAGE ==> HeaderBlocksAt(f, e, max))
    && forall p: nat :: p >= FileEnd(e, blocks) ==> f(p) == f0(p)
  }

  lemma TouchedOk(f0: File, f1: File, f2: File, f: File, e: Env, blocks: seq<Block>)
    requires BlocksOk(blocks) && blocks != [] && |e.prefix| == PrefixSize(e.class64)
    requires HeadersAt(f1, e, MaxMapnr(blocks))
    requires Within(f0, f1, 0, PAGE + SubHeaderSize(e.class64) + |e.note|)
    requires var at := OffsetBitmap(e.class64, |e.note|);
             Within(f1, f2, at, at + 2 * BitmapLen(MaxMapnr(blocks)))
    requires var at := OffsetPage(e.class64, |e.note|, BitmapLen(MaxMapnr(blocks)));
             Within(f2, f, at, at + AreaSize(e.codec, Pages(blocks)))
    ensures Touched(f0, f, e, blocks)
  {
  }

  /** create_kdump_vmcore: if every write succeeds and the page area starts below 4 GiB, the
      file is the vmcore. */
  method CreateKdumpVmcore(out: Output, e: Env, blocks: seq<Block>) returns (ok: bool)
    requires BlocksOk(blocks) && blocks != [] && |e.prefix| == PrefixSize(e.class64)
    modifies out
    ensures ok && Fits(e, blocks) ==> Vmcore(out.file, e, blocks)
    ensures ok ==> Touched(old(out.file), out.file, e, blocks)
    ensures Always(out.accepts) ==> ok
  {
    ghost var f0 := out.file;
    var bitmapAt, pageAt := Offsets(e, blocks);
    ok := WriteDumpHeader(out, e, MaxMapnr(blocks));
    if ok {
      ghost var f1, f2 := out.file, out.file;
      ok, f2 := WriteBody(out, e, blocks, bitmapAt, pageAt);
      if ok {
        TouchedOk(f0, f1, f2, out.file, e, blocks);
      }
    }
  }

  /** The bitmaps and the page area, behind the headers. */
  method WriteBody(out: Output, e: Env, blocks: seq<Block>, bitmapAt: nat, pageAt: nat)
    returns (ok: bool, ghost f: File)
    requires BlocksOk(blocks) && blocks != [] && |e.prefix| == PrefixSize(e.class64)
    requires HeadersAt(out.file, e, MaxMapnr(blocks))
    modifies out
    ensures ok && bitmapAt == BitmapPlace(e.class64, |e.note|) &&
            pageAt == PagePlace(e.class64, |e.note|, BitmapLen(MaxMapnr(blocks))) ==>
              Vmcore(out.file, e, blocks)
    ensures Within(old(out.file), f, bitmapAt, bitmapAt + 2 * BitmapLen(MaxMapnr(blocks)))
    ensures ok ==> Within(f, out.file, pageAt, pageAt + AreaSize(e.codec, Pages(blocks)))
    ensures Always(out.accepts) ==> ok
  {
    var num: nat;
    ok, num := WriteBitmaps(out, e, blocks, bitmapAt);
    f := out.file;
    if ok {
      ok := WritePages(out, e, blocks, pageAt, num, bitmapAt == BitmapPlace(e.class64, |e.note|));
    }
  }

  method WriteBitmaps(out: Output, e: Env, blocks: seq<Block>, bitmapAt: nat) returns (ok: bool, num: nat)
    requires BlocksOk(blocks) && blocks != [] && |e.prefix| == PrefixSize(e.class64)
    requires HeadersAt(out.file, e, MaxMapnr(blocks))
    modifies out
    ensures ok ==> num == |Pages(blocks)|
    ensures ok && bitmapAt == BitmapPlace(e.class64, |e.note|) ==>
              HeadersAt(out.file, e, MaxMapnr(blocks)) && BitmapsAt(out.file, e, blocks)
    ensures Within(old(out.file), out.file, bitmapAt, bitmapAt + 2 * BitmapLen(MaxMapnr(blocks)))
    ensures Always(out.accepts) ==> ok
  {
    ghost var f := out.file;
    ok, num := WriteDumpBitmap(out, blocks, bitmapAt);
    if ok && bitmapAt == BitmapPlace(e.class64, |e.note|) {
      HeadersKept(f, out.file, e, blocks);
    }
  }

  method WritePages(out: Output, e: Env, blocks: seq<Block>, pageAt: nat, num: nat, ghost placed: bool)
    returns (ok: bool)
    requires BlocksOk(blocks) && blocks != [] && |e.prefix| == PrefixSize(e.class64) && num == |Pages(blocks)|
    requires placed ==> HeadersAt(out.file, e, MaxMapnr(blocks)) && BitmapsAt(out.file, e, blocks)
    modifies out
    ensures ok && placed && pageAt == PagePlace(e.class64, |e.note|, BitmapLen(MaxMapnr(blocks))) ==>
              Vmcore(out.file, e, blocks)
    ensures Within(old(out.file), out.file, pageAt, pageAt + AreaSize(e.codec, Pages(blocks)))
    ensures Always(out.accepts) ==> ok
  {
    ghost var f := out.file;
    ok := WriteDumpPages(out, blocks, e.big, e.codec, pageAt, num);
    if ok && placed && pageAt == PagePlace(e.class64, |e.note|, BitmapLen(MaxMapnr(blocks))) {
      BeforePagesKept(f, out.file, e, blocks, pageAt + AreaSize(e.codec, Pages(blocks)));
      PagesPlaced(out.file, e, blocks, Plan(e.big, e.codec, pageAt + DESC_SIZE * num), pageAt, num);
    }
  }

  lemma PagesPlaced(f: File, e: Env, blocks: seq<Block>, m: Plan, pageAt: nat, num: nat)
    requires BlocksOk(blocks) && blocks != [] && num == |Pages(blocks)|
    requires m == Plan(e.big, e.codec, pageAt + DESC_SIZE * num)
    requires pageAt == PagePlace(e.class64, |e.note|, BitmapLen(MaxMapnr(blocks)))
    requires Holds(f, pageAt, DescBytes(m, Pages(blocks), num))
    requires Holds(f, m.dataStart, DataBytes(e.codec, Pages(blocks), num))
    ensures PagesHeld(f, e, blocks)
  {
    assert m == DumpPlan(e, blocks);
  }

  /** Headers, notes, bitmaps and page area follow each other without overlap. */
  lemma Places(e: Env, maxMapnr: nat)
    requires |e.prefix| == PrefixSize(e.class64)
    ensures |Header(e, maxMapnr)| <= PAGE
    ensures PAGE + SubHeaderSize(e.class64) + |e.note| <= BitmapPlace(e.class64, |e.note|)
    ensures var len := BitmapLen(maxMapnr);
            && BitmapPlace(e.class64, |e.note|) + 2 * len == PagePlace(e.class64, |e.note|, len)
            && len / BUFSIZE_BITMAP * BUFSIZE_BITMAP == len
  {
    RoundedUp(SubHeaderSize(e.class64) + |e.note|);
    LenAligned(maxMapnr);
    RoundedUp(BitmapLen(maxMapnr));
  }

  lemma LenAligned(maxMapnr: nat)
    ensures BitmapLen(maxMapnr) % PAGE == 0
  {
  }

  lemma HeadersKept(f: File, f': File, e: Env, blocks: seq<Block>)
    requires BlocksOk(blocks) && blocks != [] && |e.prefix| == PrefixSize(e.class64)
    requires HeadersAt(f, e, MaxMapnr(blocks))
    requires var bitmap := BitmapPlace(e.class64, |e.note|);
             Within(f, f', bitmap, bitmap + 2 * BitmapLen(MaxMapnr(blocks)))
    ensures HeadersAt(f', e, MaxMapnr(blocks))
  {
    var max, lo := MaxMapnr(blocks), BitmapPlace(e.class64, |e.note|);
    Places(e, max);
    var hi := lo + 2 * BitmapLen(max);
    HoldsElsewhere(f, f', lo, hi, 0, Header(e, max));
    HoldsElsewhere(f, f', lo, hi, PAGE, SubHeader(e, max));
    HoldsElsewhere(f, f', lo, hi, PAGE + SubHeaderSize(e.class64), e.note);
  }

  lemma BitmapBelow(f: File, f': File, limit: nat, hi: nat, offset: nat, n: nat, frames: set<nat>)
    requires BitmapAt(f, offset, n, frames) && Within(f, f', limit, hi) && offset + n * BUFSIZE_BITMAP <= limit
    ensures BitmapAt(f', offset, n, frames)
  {
  }

  /** Writing the page area leaves everything before it. */
  lemma BeforePagesKept(f: File, f': File, e: Env, blocks: seq<Block>, hi: nat)
    requires BlocksOk(blocks) && blocks != [] && |e.prefix| == PrefixSize(e.class64)
    requires Within(f, f', PagePlace(e.class64, |e.note|, BitmapLen(MaxMapnr(blocks))), hi)
    requires HeadersAt(f, e, MaxMapnr(blocks)) && BitmapsAt(f, e, blocks)
    ensures HeadersAt(f', e, MaxMapnr(blocks)) && BitmapsAt(f', e, blocks)
  {
    var len := BitmapLen(MaxMapnr(blocks));
    var limit := PagePlace(e.class64, |e.note|, len);
    Places(e, MaxMapnr(blocks));
    HeadersBelow(f, f', e, MaxMapnr(blocks), limit, hi);
    BitmapPairBelow(f, f', limit, hi, BitmapPlace(e.class64, |e.note|), len, Frames(Pages(blocks)));
  }

  lemma BitmapPairBelow(f: File, f': File, limit: nat, hi: nat, offset: nat, len: nat, frames: set<nat>)
    requires BitmapPairAt(f, offset, len, frames) && Within(f, f', limit, hi) && offset + 2 * len <= limit
    ensures BitmapPairAt(f', offset, len, frames)
  {
    BitmapBelow(f, f', limit, hi, offset, len / BUFSIZE_BITMAP, frames);
    BitmapBelow(f, f', limit, hi, offset + len, len / BUFSIZE_BITMAP, frames);
  }

  lemma HeadersBelow(f: File, f': File, e: Env, maxMapnr: nat, limit: nat, hi: nat)
    requires HeadersAt(f, e, maxMapnr) && Within(f, f', limit, hi)
    requires |Header(e, maxMapnr)| <= PAGE && PAGE + SubHeaderSize(e.class64) + |e.note| <= limit
    ensures HeadersAt(f', e, maxMapnr)
  {
  }
}
