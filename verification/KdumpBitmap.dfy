/** The two page bitmaps of the kdump format, written a buffer at a time (dump.c). */
module KdumpBitmap {
  import opened Basics
  import opened GuestPages
  import opened DumpBytes

  const BUFSIZE_BITMAP: nat := 4096
  const PFN_BUFBITMAP: nat := 32768

  /** The dump file being written. `accepts` says which writes the system carries out. */
  class Output {
    var file: File
    var attempts: nat
    const accepts: nat -> bool

    constructor (accepts: nat -> bool)
      ensures this.accepts == accepts && attempts == 0 && forall p :: file(p) == 0
    {
      this.accepts := accepts;
      attempts := 0;
      file := (p: nat) => 0;
    }

    /** write_buffer */
    method WriteBuffer(offset: nat, buf: seq<byte>) returns (ok: bool)
      modifies this
      ensures ok == accepts(old(attempts)) && attempts == old(attempts) + 1
      ensures file == if ok then Put(old(file), offset, buf) else old(file)
    {
      ok := accepts(attempts);
      attempts := attempts + 1;
      if ok {
        file := Put(file, offset, buf);
      }
    }
  }

  /** The bit of frame `pfn` in the bitmap at `offset`. */
  predicate FileBit(f: File, offset: nat, pfn: nat) {
    TestBit(f(offset + pfn / 8), pfn % 8)
  }

  predicate BufferBit(buf: seq<byte>, i: nat)
    requires i / 8 < |buf|
  {
    TestBit(buf[i / 8], i % 8)
  }

  /** The first `n` buffers of the bitmap at `offset` show exactly `frames`. */
  ghost predicate BitmapAt(f: File, offset: nat, n: nat, frames: set<nat>) {
    forall pfn: nat :: pfn < n * PFN_BUFBITMAP ==> (FileBit(f, offset, pfn) <==> pfn in frames)
  }

  /** Two bitmaps of `len` bytes, one behind the other, show `frames`. */
  ghost predicate BitmapPairAt(f: File, offset: nat, len: nat, frames: set<nat>) {
    && BitmapAt(f, offset, len / BUFSIZE_BITMAP, frames)
    && BitmapAt(f, offset + len, len / BUFSIZE_BITMAP, frames)
  }

  /** The buffer shows `frames` in its part of the bitmap, the `n`-th. */
  ghost predicate BufferAt(buf: seq<byte>, n: nat, frames: set<nat>) {
    && |buf| == BUFSIZE_BITMAP
    && forall i: nat :: i < PFN_BUFBITMAP ==> (BufferBit(buf, i) <==> n * PFN_BUFBITMAP + i in frames)
  }

  lemma BufferWritten(f: File, offset: nat, n: nat, frames: set<nat>, buf: seq<byte>)
    requires BitmapAt(f, offset, n, frames) && BufferAt(buf, n, frames)
    ensures BitmapAt(Put(f, offset + n * BUFSIZE_BITMAP, buf), offset, n + 1, frames)
  {
    var f' := Put(f, offset + n * BUFSIZE_BITMAP, buf);
    forall pfn: nat | pfn < (n + 1) * PFN_BUFBITMAP ensures FileBit(f', offset, pfn) <==> pfn in frames {
      if pfn < n * PFN_BUFBITMAP {
        assert FileBit(f', offset, pfn) == FileBit(f, offset, pfn);
      } else {
        assert FileBit(f', offset, pfn) == BufferBit(buf, pfn - n * PFN_BUFBITMAP);
      }
    }
  }

  lemma BitmapElsewhere(f: File, f': File, lo: nat, hi: nat, offset: nat, n: nat, frames: set<nat>)
    requires BitmapAt(f, offset, n, frames) && Within(f, f', lo, hi)
    requires hi <= offset || offset + n * BUFSIZE_BITMAP <= lo
    ensures BitmapAt(f', offset, n, frames)
  {
  }

  lemma BitmapSame(f: File, offset: nat, n: nat, frames: set<nat>, frames': set<nat>)
    requires BitmapAt(f, offset, n, frames)
    requires forall x: nat :: x < n * PFN_BUFBITMAP ==> (x in frames <==> x in frames')
    ensures BitmapAt(f, offset, n, frames')
  {
  }

  lemma ZeroBuffer(buf: seq<byte>, n: nat, frames: set<nat>)
    requires |buf| == BUFSIZE_BITMAP && (forall i :: 0 <= i < |buf| ==> buf[i] == 0)
    requires forall x :: x in frames ==> x < n * PFN_BUFBITMAP
    ensures BufferAt(buf, n, frames)
  {
    forall i: nat | i < PFN_BUFBITMAP ensures BufferBit(buf, i) <==> n * PFN_BUFBITMAP + i in frames {
      ZeroBits(i % 8);
    }
  }

  function Framed(frames: set<nat>, pfn: nat, value: bool): set<nat> {
    if value then frames + {pfn} else frames - {pfn}
  }

  lemma BufferSet(buf: seq<byte>, buf': seq<byte>, frames: set<nat>, pfn: nat, value: bool)
    requires BufferAt(buf, pfn / PFN_BUFBITMAP, frames)
    requires var i := pfn % PFN_BUFBITMAP / 8; buf' == buf[i := WithBitByte(buf[i], pfn % PFN_BUFBITMAP % 8, value)]
    ensures BufferAt(buf', pfn / PFN_BUFBITMAP, Framed(frames, pfn, value))
  {
    var n, place := pfn / PFN_BUFBITMAP, pfn % PFN_BUFBITMAP;
    forall i: nat | i < PFN_BUFBITMAP
      ensures BufferBit(buf', i) <==> n * PFN_BUFBITMAP + i in Framed(frames, pfn, value)
    {
      WithBitBits(buf[place / 8], place % 8, value, i % 8);
      assert BufferBit(buf, i) <==> n * PFN_BUFBITMAP + i in frames;
      assert i == place <==> i / 8 == place / 8 && i % 8 == place % 8;
      assert i == place <==> n * PFN_BUFBITMAP + i == pfn;
    }
  }

  /** Both bitmaps are written up to buffer `n`, which is still in memory. */
  ghost predicate Written(f: File, offset: nat, len: nat, buf: seq<byte>, n: nat, frames: set<nat>) {
    && BitmapAt(f, offset, n, frames) && BitmapAt(f, offset + len, n, frames)
    && BufferAt(buf, n, frames) && n * BUFSIZE_BITMAP <= len
  }

  /** The file with the buffer copied to its place in the bitmap at `offset`. */
  function Copied(f: File, offset: nat, n: nat, buf: seq<byte>): File {
    Put(f, offset + n * BUFSIZE_BITMAP, buf)
  }

  lemma FirstFlushed(f: File, offset: nat, len: nat, n: nat, buf: seq<byte>, frames: set<nat>)
    requires Written(f, offset, len, buf, n, frames) && (n + 1) * BUFSIZE_BITMAP <= len
    ensures var f' := Copied(f, offset, n, buf);
            && BitmapAt(f', offset, n + 1, frames) && BitmapAt(f', offset + len, n, frames)
            && Within(f, f', offset, offset + 2 * len)
  {
    var f', lo := Copied(f, offset, n, buf), offset + n * BUFSIZE_BITMAP;
    BufferWritten(f, offset, n, frames, buf);
    PutHolds(f, lo, buf);
    BitmapElsewhere(f, f', lo, lo + |buf|, offset + len, n, frames);
  }

  lemma SecondFlushed(f: File, offset: nat, len: nat, n: nat, buf: seq<byte>, frames: set<nat>)
    requires BitmapAt(f, offset, n + 1, frames) && BitmapAt(f, offset + len, n, frames)
    requires BufferAt(buf, n, frames) && (n + 1) * BUFSIZE_BITMAP <= len
    ensures var f' := Copied(f, offset + len, n, buf);
            && BitmapAt(f', offset, n + 1, frames) && BitmapAt(f', offset + len, n + 1, frames)
            && Within(f, f', offset, offset + 2 * len)
  {
    var f', lo := Copied(f, offset + len, n, buf), offset + len + n * BUFSIZE_BITMAP;
    BufferWritten(f, offset + len, n, frames, buf);
    PutHolds(f, lo, buf);
    BitmapElsewhere(f, f', lo, lo + |buf|, offset, n + 1, frames);
  }

  /** One turn of the flush loop: the buffer goes to both bitmaps and is cleared. */
  method Flush(out: Output, offset: nat, len: nat, n: nat, buf: array<byte>, ghost frames: set<nat>) returns (ok: bool)
    requires buf.Length == BUFSIZE_BITMAP && Written(out.file, offset, len, buf[..], n, frames)
    requires (n + 1) * BUFSIZE_BITMAP <= len && forall x :: x in frames ==> x < (n + 1) * PFN_BUFBITMAP
    modifies out, buf
    ensures ok ==> Written(out.file, offset, len, buf[..], n + 1, frames)
    ensures Within(old(out.file), out.file, offset, offset + 2 * len)
    ensures Always(out.accepts) ==> ok
  {
    FirstFlushed(out.file, offset, len, n, buf[..], frames);
    ok := out.WriteBuffer(offset + n * BUFSIZE_BITMAP, buf[..]);
    if !ok {
      return;
    }
    SecondFlushed(out.file, offset, len, n, buf[..], frames);
    ok := out.WriteBuffer(offset + len + n * BUFSIZE_BITMAP, buf[..]);
    if !ok {
      return;
    }
    forall i | 0 <= i < buf.Length {
      buf[i] := 0;
    }
    ZeroBuffer(buf[..], n + 1, frames);
  }

  /** set_dump_bitmap: with every frame so far at most `last`, sets the bit of `pfn`. */
  method SetDumpBitmap(out: Output, offset: nat, len: nat, last: nat, pfn: nat, value: bool, buf: array<byte>,
                       ghost frames: set<nat>)
    returns (ok: bool)
    requires last <= pfn && (forall x :: x in frames ==> x <= last)
    requires buf.Length == BUFSIZE_BITMAP && pfn / PFN_BUFBITMAP * BUFSIZE_BITMAP <= len
    requires Written(out.file, offset, len, buf[..], last / PFN_BUFBITMAP, frames)
    modifies out, buf
    ensures ok ==> Written(out.file, offset, len, buf[..], pfn / PFN_BUFBITMAP, Framed(frames, pfn, value))
    ensures Within(old(out.file), out.file, offset, offset + 2 * len)
    ensures Always(out.accepts) ==> ok
  {
    var n := last / PFN_BUFBITMAP;
    var target := pfn / PFN_BUFBITMAP;
    while n < target
      invariant last / PFN_BUFBITMAP <= n <= target
      invariant Written(out.file, offset, len, buf[..], n, frames)
      invariant Within(old(out.file), out.file, offset, offset + 2 * len)
    {
      ok := Flush(out, offset, len, n, buf, frames);
      if !ok {
        return;
      }
      n := n + 1;
    }
    var i := pfn % PFN_BUFBITMAP / 8;
    ghost var before := buf[..];
    buf[i] := WithBitByte(buf[i], pfn % PFN_BUFBITMAP % 8, value);
    BufferSet(before, buf[..], frames, pfn, value);
    BitmapSame(out.file, offset, n, frames, Framed(frames, pfn, value));
    BitmapSame(out.file, offset + len, n, frames, Framed(frames, pfn, value));
    return true;
  }

  // The whole bitmap

  /** get_max_mapnr */
  function MaxMapnr(blocks: seq<Block>): nat
    requires blocks != []
  {
    blocks[|blocks| - 1].end / PAGE
  }

  function DivRoundUp(n: nat, d: nat): nat
    requires d > 0
  {
    (n + d - 1) / d
  }

  lemma RoundedUp(n: nat)
    ensures n <= DivRoundUp(n, PAGE) * PAGE
    ensures n % PAGE == 0 ==> DivRoundUp(n, PAGE) * PAGE == n
  {
  }

  /** len_dump_bitmap */
  function BitmapLen(maxMapnr: nat): nat {
    DivRoundUp(DivRoundUp(maxMapnr, 8), PAGE) * PAGE
  }

  function Frames(pages: seq<Page>): set<nat> {
    set p | p in pages :: p.pfn
  }

  lemma {:induction false} LastPage(blocks: seq<Block>)
    requires BlocksOk(blocks) && blocks != []
    ensures |Pages(blocks)| > 0 && Pages(blocks)[|Pages(blocks)| - 1].pfn + 1 == MaxMapnr(blocks)
  {
  }

  lemma BitmapLenFits(maxMapnr: nat, pfn: nat)
    requires pfn + 1 == maxMapnr
    ensures BitmapLen(maxMapnr) == (pfn / PFN_BUFBITMAP + 1) * BUFSIZE_BITMAP
  {
  }

  /** write_dump_bitmap: both bitmaps show exactly the frames of the guest. */
  method WriteDumpBitmap(out: Output, blocks: seq<Block>, offset: nat) returns (ok: bool, num: nat)
    requires BlocksOk(blocks) && blocks != []
    modifies out
    ensures ok ==> num == |Pages(blocks)|
    ensures ok ==> BitmapPairAt(out.file, offset, BitmapLen(MaxMapnr(blocks)), Frames(Pages(blocks)))
    ensures Within(old(out.file), out.file, offset, offset + 2 * BitmapLen(MaxMapnr(blocks)))
    ensures Always(out.accepts) ==> ok
  {
    var buf := new byte[BUFSIZE_BITMAP](_ => 0);
    ZeroBuffer(buf[..], 0, {});
    var last: nat;
    ok, num, last := MarkPages(out, blocks, offset, buf);
    LastPage(blocks);
    if ok && num > 0 {
      ok := SyncBitmap(out, blocks, offset, buf, num, last);
    }
  }

  /** The last call of write_dump_bitmap, which writes out the buffer that is left. */
  method SyncBitmap(out: Output, blocks: seq<Block>, offset: nat, buf: array<byte>, num: nat, last: nat)
    returns (ok: bool)
    requires BlocksOk(blocks) && blocks != [] && num == |Pages(blocks)|
    requires buf.Length == BUFSIZE_BITMAP && Marked(out.file, blocks, offset, buf[..], num, last)
    modifies out, buf
    ensures ok ==> var len := BitmapLen(MaxMapnr(blocks));
                   && BitmapAt(out.file, offset, len / BUFSIZE_BITMAP, Frames(Pages(blocks)))
                   && BitmapAt(out.file, offset + len, len / BUFSIZE_BITMAP, Frames(Pages(blocks)))
    ensures Within(old(out.file), out.file, offset, offset + 2 * BitmapLen(MaxMapnr(blocks)))
    ensures Always(out.accepts) ==> ok
  {
    SyncReady(blocks, last);
    ok := SetDumpBitmap(out, offset, BitmapLen(MaxMapnr(blocks)), last, last + PFN_BUFBITMAP, false, buf,
                        Frames(Pages(blocks)));
  }

  lemma SyncReady(blocks: seq<Block>, last: nat)
    requires BlocksOk(blocks) && blocks != [] && last == LastPfn(Pages(blocks), |Pages(blocks)|)
    ensures forall x :: x in Frames(Pages(blocks)) ==> x <= last
    ensures BitmapLen(MaxMapnr(blocks)) == (last + PFN_BUFBITMAP) / PFN_BUFBITMAP * BUFSIZE_BITMAP
    ensures BitmapLen(MaxMapnr(blocks)) / BUFSIZE_BITMAP == (last + PFN_BUFBITMAP) / PFN_BUFBITMAP
    ensures Frames(Pages(blocks)[..|Pages(blocks)|]) == Frames(Pages(blocks))
    ensures Framed(Frames(Pages(blocks)), last + PFN_BUFBITMAP, false) == Frames(Pages(blocks))
  {
    var n := |Pages(blocks)|;
    assert Pages(blocks)[..n] == Pages(blocks);
    LastPage(blocks);
    BitmapLenFits(MaxMapnr(blocks), last);
    FrameBound(blocks, n);
  }

  /** The frames of the first `k` pages end at the `k`-th. */
  lemma FrameBound(blocks: seq<Block>, k: nat)
    requires BlocksOk(blocks) && 0 < k <= |Pages(blocks)|
    ensures forall x :: x in Frames(Pages(blocks)[..k]) ==> x <= Pages(blocks)[k - 1].pfn
  {
    PagesRise(blocks);
  }

  lemma FramesNext(pages: seq<Page>, k: nat)
    requires k < |pages|
    ensures Frames(pages[..k + 1]) == Framed(Frames(pages[..k]), pages[k].pfn, true)
  {
  }

  function LastPfn(pages: seq<Page>, k: nat): nat
    requires k <= |pages|
  {
    if k == 0 then 0 else pages[k - 1].pfn
  }

  /** The first `num` pages are marked. */
  ghost predicate Marked(f: File, blocks: seq<Block>, offset: nat, buf: seq<byte>, num: nat, last: nat)
    requires BlocksOk(blocks) && blocks != []
  {
    && num <= |Pages(blocks)| && last == LastPfn(Pages(blocks), num)
    && Written(f, offset, BitmapLen(MaxMapnr(blocks)), buf, last / PFN_BUFBITMAP, Frames(Pages(blocks)[..num]))
  }

  /** The loop of write_dump_bitmap. */
  method MarkPages(out: Output, blocks: seq<Block>, offset: nat, buf: array<byte>)
    returns (ok: bool, num: nat, last: nat)
    requires BlocksOk(blocks) && blocks != []
    requires buf.Length == BUFSIZE_BITMAP && BufferAt(buf[..], 0, {})
    modifies out, buf
    ensures ok ==> num == |Pages(blocks)| && Marked(out.file, blocks, offset, buf[..], num, last)
    ensures Within(old(out.file), out.file, offset, offset + 2 * BitmapLen(MaxMapnr(blocks)))
    ensures Always(out.accepts) ==> ok
  {
    last, num := 0, 0;
    var more, block, pfn, data := GetNextPage(blocks, None, 0, 0);
    while more
      invariant more == (num < |Pages(blocks)|)
      invariant more ==> Reached(blocks, block, pfn, data, num)
      invariant Marked(out.file, blocks, offset, buf[..], num, last)
      invariant Within(old(out.file), out.file, offset, offset + 2 * BitmapLen(MaxMapnr(blocks)))
      decreases |Pages(blocks)| - num
    {
      ok := MarkPage(out, blocks, offset, buf, num, last, pfn);
      if !ok {
        return;
      }
      last := pfn;
      num := num + 1;
      more, block, pfn, data := GetNextPage(blocks, block, pfn, num - 1);
    }
    ok := true;
  }

  method MarkPage(out: Output, blocks: seq<Block>, offset: nat, buf: array<byte>, num: nat, last: nat, pfn: nat)
    returns (ok: bool)
    requires BlocksOk(blocks) && blocks != []
    requires num < |Pages(blocks)| && pfn == Pages(blocks)[num].pfn
    requires buf.Length == BUFSIZE_BITMAP && Marked(out.file, blocks, offset, buf[..], num, last)
    modifies out, buf
    ensures ok ==> Marked(out.file, blocks, offset, buf[..], num + 1, pfn)
    ensures Within(old(out.file), out.file, offset, offset + 2 * BitmapLen(MaxMapnr(blocks)))
    ensures Always(out.accepts) ==> ok
  {
    MarkStep(blocks, num);
    ok := SetDumpBitmap(out, offset, BitmapLen(MaxMapnr(blocks)), last, pfn, true, buf, Frames(Pages(blocks)[..num]));
  }

  /** What marking page `k` after the first `k` needs. */
  lemma MarkStep(blocks: seq<Block>, k: nat)
    requires BlocksOk(blocks) && k < |Pages(blocks)|
    ensures var pages := Pages(blocks);
            && LastPfn(pages, k) <= pages[k].pfn
            && (forall x :: x in Frames(pages[..k]) ==> x <= LastPfn(pages, k))
            && pages[k].pfn / PFN_BUFBITMAP * BUFSIZE_BITMAP <= BitmapLen(MaxMapnr(blocks))
            && Frames(pages[..k + 1]) == Framed(Frames(pages[..k]), pages[k].pfn, true)
  {
    PagesRise(blocks);
    LastPage(blocks);
    var pages := Pages(blocks);
    BitmapLenFits(MaxMapnr(blocks), pages[|pages| - 1].pfn);
    FramesNext(pages, k);
    if k > 0 {
      FrameBound(blocks, k);
    }
  }
}
