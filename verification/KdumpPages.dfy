/** The page descriptors and page data of the kdump format, written through two caches (dump.c). */
module KdumpPages {
  import opened Basics
  import opened GuestPages
  import opened DumpBytes
  import opened KdumpBitmap

  const BUFSIZE_DATA_CACHE: nat := 16384
  const DESC_SIZE: nat := 24

  /** The compression library chosen for the dump; `compress` may fail. */
  datatype Codec = Codec(flag: nat, compress: seq<byte> -> Option<seq<byte>>, decompress: seq<byte> -> seq<byte>)

  /** Decompression undoes compression of a page. */
  ghost predicate CodecOk(c: Codec) {
    && c.flag in {1, 2, 4}
    && forall p: seq<byte> :: |p| == PAGE && c.compress(p).Some? ==> c.decompress(c.compress(p).value) == p
  }

  /** How the pages are written: byte order, compressor, and where the data starts. */
  datatype Plan = Plan(big: bool, codec: Codec, dataStart: nat)

  datatype Descriptor = Descriptor(offset: nat, size: nat, flags: nat)

  /** PageDescriptor in the file, with page_flags zero. */
  function DescriptorBytes(big: bool, d: Descriptor): (s: seq<byte>)
    ensures |s| == DESC_SIZE
  {
    Encode(big, 8, d.offset) + Encode(big, 4, d.size) + Encode(big, 4, d.flags) + Encode(big, 8, 0)
  }

  predicate IsZero(data: seq<byte>) {
    forall i :: 0 <= i < |data| ==> data[i] == 0
  }

  function ZeroPage(): (s: seq<byte>)
    ensures |s| == PAGE && IsZero(s)
  {
    seq<byte>(PAGE, i => 0)
  }

  /** Is the compressed form used? */
  predicate Compressed(c: Codec, data: seq<byte>) {
    c.compress(data).Some? && |c.compress(data).value| < PAGE
  }

  function Payload(c: Codec, data: seq<byte>): seq<byte> {
    if Compressed(c, data) then c.compress(data).value else data
  }

  /** The bytes a page takes: none if all its bytes are zero, otherwise the shorter of the page and
      its compressed form. */
  function Need(c: Codec, data: seq<byte>): nat {
    if forall i :: 0 <= i < |data| ==> data[i] == 0 then 0
    else if c.compress(data).Some? && |c.compress(data).value| < |data| then |c.compress(data).value|
    else |data|
  }

  function NeedAll(c: Codec, pages: seq<Page>, k: nat): nat
    requires k <= |pages|
  {
    if k == 0 then 0 else NeedAll(c, pages, k - 1) + Need(c, pages[k - 1].data)
  }

  /** The page data takes one shared page and what each page needs. */
  lemma {:induction false} DataSize(c: Codec, pages: seq<Page>, k: nat)
    requires k <= |pages| && forall i :: 0 <= i < |pages| ==> |pages[i].data| == PAGE
    ensures |DataBytes(c, pages, k)| == PAGE + NeedAll(c, pages, k)
  {
    if k > 0 {
      DataSize(c, pages, k - 1);
    }
  }

  /** The page data of the first `k` pages, after the zero page all zero pages share. */
  function DataBytes(c: Codec, pages: seq<Page>, k: nat): seq<byte>
    requires k <= |pages|
  {
    if k == 0 then ZeroPage()
    else DataBytes(c, pages, k - 1) + (if IsZero(pages[k - 1].data) then [] else Payload(c, pages[k - 1].data))
  }

  function PageDescriptor(m: Plan, pages: seq<Page>, k: nat): Descriptor
    requires k < |pages|
  {
    var data := pages[k].data;
    if IsZero(data) then Descriptor(m.dataStart, PAGE, 0)
    else Descriptor(m.dataStart + |DataBytes(m.codec, pages, k)|, |Payload(m.codec, data)|,
                    if Compressed(m.codec, data) then m.codec.flag else 0)
  }

  /** The descriptors of the first `k` pages. */
  function DescBytes(m: Plan, pages: seq<Page>, k: nat): (s: seq<byte>)
    requires k <= |pages|
    ensures |s| == DESC_SIZE * k
  {
    if k == 0 then []
    else DescBytes(m, pages, k - 1) + DescriptorBytes(m.big, PageDescriptor(m, pages, k - 1))
  }

  /** The bytes `stream` went through a cache: all but `data` is in the file from `base` on. */
  ghost predicate Cached(f: File, data: seq<byte>, offset: nat, base: nat, stream: seq<byte>) {
    && |data| <= |stream| && data == stream[|stream| - |data|..]
    && offset == base + |stream| - |data|
    && Holds(f, base, stream[..|stream| - |data|])
  }

  lemma CachedElsewhere(f: File, f': File, lo: nat, hi: nat, data: seq<byte>, offset: nat, base: nat, stream: seq<byte>)
    requires Cached(f, data, offset, base, stream) && Within(f, f', lo, hi)
    requires base + |stream| <= lo || hi <= base
    ensures Cached(f', data, offset, base, stream)
  {
  }

  lemma CachedFlush(f: File, data: seq<byte>, offset: nat, base: nat, stream: seq<byte>)
    requires Cached(f, data, offset, base, stream)
    ensures Cached(Put(f, offset, data), [], offset + |data|, base, stream)
    ensures Within(f, Put(f, offset, data), base, base + |stream|)
  {
  }

  lemma CachedAppend(f: File, data: seq<byte>, offset: nat, base: nat, stream: seq<byte>, buf: seq<byte>)
    requires Cached(f, data, offset, base, stream)
    ensures Cached(f, data + buf, offset, base, stream + buf)
  {
  }

  class DataCache {
    var data: seq<byte>
    var offset: nat

    /** prepare_data_cache */
    constructor (offset: nat)
      ensures data == [] && this.offset == offset
    {
      this.offset := offset;
      data := [];
    }

    /** write_cache: `buf` is appended to the stream; `sync` leaves all of it in the file. */
    method WriteCache(out: Output, buf: seq<byte>, sync: bool, ghost base: nat, ghost stream: seq<byte>)
      returns (ok: bool)
      requires |buf| <= BUFSIZE_DATA_CACHE && (sync ==> buf == [])
      requires |data| <= BUFSIZE_DATA_CACHE && Cached(out.file, data, offset, base, stream)
      modifies this, out
      ensures ok ==> |data| <= BUFSIZE_DATA_CACHE && Cached(out.file, data, offset, base, stream + buf)
      ensures ok && sync ==> data == []
      ensures Within(old(out.file), out.file, base, base + |stream|)
      ensures old(|data|) + |buf| <= BUFSIZE_DATA_CACHE && !sync ==> ok && out.attempts == old(out.attempts)
      ensures out.attempts <= old(out.attempts) + 1
      ensures Always(out.accepts) ==> ok
    {
      if (!sync && |data| + |buf| > BUFSIZE_DATA_CACHE) || (sync && |data| > 0) {
        CachedFlush(out.file, data, offset, base, stream);
        ok := out.WriteBuffer(offset, data);
        if !ok {
          return;
        }
        offset := offset + |data|;
        data := [];
      }
      CachedAppend(out.file, data, offset, base, stream, buf);
      if sync {
        assert stream + buf == stream;
      } else {
        data := data + buf;
      }
      return true;
    }
  }

  /** The descriptors of the first `k` and the data of the first `j` pages have gone through
      the two caches. */
  ghost predicate Dumped(f: File, desc: seq<byte>, descAt: nat, data: seq<byte>, dataAt: nat, m: Plan, pages: seq<Page>,
                         k: nat, j: nat)
    requires DESC_SIZE * |pages| <= m.dataStart && k <= |pages| && j <= |pages|
  {
    && |desc| <= BUFSIZE_DATA_CACHE && |data| <= BUFSIZE_DATA_CACHE
    && Cached(f, desc, descAt, DescStart(m, pages), DescBytes(m, pages, k))
    && Cached(f, data, dataAt, m.dataStart, DataBytes(m.codec, pages, j))
  }

  ghost function DescStart(m: Plan, pages: seq<Page>): nat
    requires DESC_SIZE * |pages| <= m.dataStart
  {
    m.dataStart - DESC_SIZE * |pages|
  }

  /** The length of the page area: descriptors and data. */
  function AreaSize(c: Codec, pages: seq<Page>): nat {
    DESC_SIZE * |pages| + |DataBytes(c, pages, |pages|)|
  }

  /** Where the page area ends. */
  ghost function DataEnd(m: Plan, pages: seq<Page>): nat {
    m.dataStart + |DataBytes(m.codec, pages, |pages|)|
  }

  lemma WithinWider(f: File, f': File, f'': File, lo: nat, hi: nat, a: nat, b: nat)
    requires Within(f, f', lo, hi) && Within(f', f'', a, b) && lo <= a && b <= hi
    ensures Within(f, f'', lo, hi)
  {
  }

  lemma {:induction false} DataPrefix(c: Codec, pages: seq<Page>, n: nat, k: nat)
    requires k <= n <= |pages|
    ensures DataBytes(c, pages, k) <= DataBytes(c, pages, n)
  {
    if k < n {
      DataPrefix(c, pages, n - 1, k);
    }
  }

  /** The data of page `k`, if it has any, and the descriptor to go with it. */
  method WriteData(out: Output, desc: DataCache, data: DataCache, m: Plan, offset: nat, buf: seq<byte>,
                   ghost pages: seq<Page>, ghost k: nat)
    returns (ok: bool, pd: Descriptor, offset': nat)
    requires desc != data && DESC_SIZE * |pages| <= m.dataStart && k < |pages|
    requires |buf| == PAGE && buf == pages[k].data && offset == m.dataStart + |DataBytes(m.codec, pages, k)|
    requires Dumped(out.file, desc.data, desc.offset, data.data, data.offset, m, pages, k, k)
    modifies out, data
    ensures ok ==> Dumped(out.file, desc.data, desc.offset, data.data, data.offset, m, pages, k, k + 1)
    ensures ok ==> pd == PageDescriptor(m, pages, k) && offset' == m.dataStart + |DataBytes(m.codec, pages, k + 1)|
    ensures Within(old(out.file), out.file, DescStart(m, pages), DataEnd(m, pages))
    ensures Always(out.accepts) ==> ok
  {
    DataNext(m, pages, k);
    if IsZero(buf) {
      return true, Descriptor(m.dataStart, PAGE, 0), offset;
    }
    var packed := m.codec.compress(buf);
    var bytes, flags := buf, 0;
    if packed.Some? && |packed.value| < PAGE {
      bytes, flags := packed.value, m.codec.flag;
    }
    assert bytes == Payload(m.codec, buf);
    pd, offset' := Descriptor(offset, |bytes|, flags), offset + |bytes|;
    ok := PutData(out, desc, data, m, bytes, pages, k);
  }

  lemma DataNext(m: Plan, pages: seq<Page>, k: nat)
    requires k < |pages|
    ensures IsZero(pages[k].data) ==> DataBytes(m.codec, pages, k + 1) == DataBytes(m.codec, pages, k)
    ensures !IsZero(pages[k].data) ==>
              DataBytes(m.codec, pages, k + 1) == DataBytes(m.codec, pages, k) + Payload(m.codec, pages[k].data)
  {
  }

  method PutData(out: Output, desc: DataCache, data: DataCache, m: Plan, bytes: seq<byte>, ghost pages: seq<Page>,
                 ghost k: nat)
    returns (ok: bool)
    requires desc != data && DESC_SIZE * |pages| <= m.dataStart && k < |pages| && |bytes| <= PAGE
    requires DataBytes(m.codec, pages, k + 1) == DataBytes(m.codec, pages, k) + bytes
    requires Dumped(out.file, desc.data, desc.offset, data.data, data.offset, m, pages, k, k)
    modifies out, data
    ensures ok ==> Dumped(out.file, desc.data, desc.offset, data.data, data.offset, m, pages, k, k + 1)
    ensures Within(old(out.file), out.file, DescStart(m, pages), DataEnd(m, pages))
    ensures Always(out.accepts) ==> ok
  {
    ghost var written, f, hi := DataBytes(m.codec, pages, k), out.file, m.dataStart + |DataBytes(m.codec, pages, k)|;
    ok := data.WriteCache(out, bytes, false, m.dataStart, written);
    DataPrefix(m.codec, pages, |pages|, k);
    WithinWider(f, f, out.file, DescStart(m, pages), DataEnd(m, pages), m.dataStart, hi);
    CachedElsewhere(f, out.file, m.dataStart, hi, desc.data, desc.offset, DescStart(m, pages), DescBytes(m, pages, k));
  }

  /** The descriptor of page `k`. */
  method WriteDescriptor(out: Output, desc: DataCache, data: DataCache, m: Plan, pd: Descriptor,
                         ghost pages: seq<Page>, ghost k: nat)
    returns (ok: bool)
    requires desc != data && DESC_SIZE * |pages| <= m.dataStart && k < |pages| && pd == PageDescriptor(m, pages, k)
    requires Dumped(out.file, desc.data, desc.offset, data.data, data.offset, m, pages, k, k + 1)
    modifies out, desc
    ensures ok ==> Dumped(out.file, desc.data, desc.offset, data.data, data.offset, m, pages, k + 1, k + 1)
    ensures Within(old(out.file), out.file, DescStart(m, pages), DataEnd(m, pages))
    ensures Always(out.accepts) ==> ok
  {
    ghost var f, lo, descs := out.file, DescStart(m, pages), DescBytes(m, pages, k);
    ok := desc.WriteCache(out, DescriptorBytes(m.big, pd), false, lo, descs);
    WithinWider(f, f, out.file, lo, DataEnd(m, pages), lo, lo + |descs|);
    CachedElsewhere(f, out.file, lo, lo + |descs|, data.data, data.offset, m.dataStart,
                    DataBytes(m.codec, pages, k + 1));
  }

  /** One turn of the main loop of write_dump_pages. */
  method DumpPage(out: Output, desc: DataCache, data: DataCache, m: Plan, offset: nat, buf: seq<byte>,
                  ghost pages: seq<Page>, ghost k: nat)
    returns (ok: bool, offset': nat)
    requires desc != data && DESC_SIZE * |pages| <= m.dataStart && k < |pages|
    requires |buf| == PAGE && buf == pages[k].data && offset == m.dataStart + |DataBytes(m.codec, pages, k)|
    requires Dumped(out.file, desc.data, desc.offset, data.data, data.offset, m, pages, k, k)
    modifies out, desc, data
    ensures ok ==> Dumped(out.file, desc.data, desc.offset, data.data, data.offset, m, pages, k + 1, k + 1)
    ensures ok ==> offset' == m.dataStart + |DataBytes(m.codec, pages, k + 1)|
    ensures Within(old(out.file), out.file, DescStart(m, pages), DataEnd(m, pages))
    ensures Always(out.accepts) ==> ok
  {
    var pd: Descriptor;
    ok, pd, offset' := WriteData(out, desc, data, m, offset, buf, pages, k);
    if ok {
      ok := WriteDescriptor(out, desc, data, m, pd, pages, k);
    }
  }

  /** The main loop of write_dump_pages. */
  method DumpPages(out: Output, blocks: seq<Block>, desc: DataCache, data: DataCache, m: Plan, ghost pages: seq<Page>)
    returns (ok: bool)
    requires BlocksOk(blocks) && blocks != [] && pages == Pages(blocks)
    requires desc != data && DESC_SIZE * |pages| <= m.dataStart
    requires Dumped(out.file, desc.data, desc.offset, data.data, data.offset, m, pages, 0, 0)
    modifies out, desc, data
    ensures ok ==> Dumped(out.file, desc.data, desc.offset, data.data, data.offset, m, pages, |pages|, |pages|)
    ensures Within(old(out.file), out.file, DescStart(m, pages), DataEnd(m, pages))
    ensures Always(out.accepts) ==> ok
  {
    ghost var k := 0;
    var offset := m.dataStart + PAGE;
    var more, block, pfn, buf := GetNextPage(blocks, None, 0, 0);
    while more
      invariant k <= |pages| && more == (k < |pages|)
      invariant more ==> Reached(blocks, block, pfn, buf, k)
      invariant offset == m.dataStart + |DataBytes(m.codec, pages, k)|
      invariant Dumped(out.file, desc.data, desc.offset, data.data, data.offset, m, pages, k, k)
      invariant Within(old(out.file), out.file, DescStart(m, pages), DataEnd(m, pages))
      decreases |pages| - k
    {
      ok, offset := DumpPage(out, desc, data, m, offset, buf, pages, k);
      if !ok {
        return;
      }
      more, block, pfn, buf := GetNextPage(blocks, block, pfn, k);
      k := k + 1;
    }
    ok := true;
  }

  /** write_dump_pages: the file holds every descriptor from `offsetPage` on, and the page
      data behind them. */
  method WriteDumpPages(out: Output, blocks: seq<Block>, big: bool, codec: Codec, offsetPage: nat, num: nat)
    returns (ok: bool)
    requires BlocksOk(blocks) && blocks != [] && num == |Pages(blocks)|
    modifies out
    ensures ok ==> var m := Plan(big, codec, offsetPage + DESC_SIZE * num);
                   && Holds(out.file, offsetPage, DescBytes(m, Pages(blocks), num))
                   && Holds(out.file, m.dataStart, DataBytes(codec, Pages(blocks), num))
    ensures Within(old(out.file), out.file, offsetPage, offsetPage + AreaSize(codec, Pages(blocks)))
    ensures Always(out.accepts) ==> ok
  {
    var m := Plan(big, codec, offsetPage + DESC_SIZE * num);
    var desc := new DataCache(offsetPage);
    var data := new DataCache(m.dataStart);
    ok := PutZeroPage(out, desc, data, m, Pages(blocks));
    if !ok {
      return;
    }
    ok := DumpPages(out, blocks, desc, data, m, Pages(blocks));
    if ok {
      ok := SyncCaches(out, desc, data, m, Pages(blocks));
    }
  }

  /** The page all zero pages share. */
  method PutZeroPage(out: Output, desc: DataCache, data: DataCache, m: Plan, ghost pages: seq<Page>) returns (ok: bool)
    requires desc != data && DESC_SIZE * |pages| <= m.dataStart
    requires desc.data == [] && desc.offset == DescStart(m, pages) && data.data == [] && data.offset == m.dataStart
    modifies out, data
    ensures ok ==> Dumped(out.file, desc.data, desc.offset, data.data, data.offset, m, pages, 0, 0)
    ensures Within(old(out.file), out.file, DescStart(m, pages), DataEnd(m, pages))
    ensures Always(out.accepts) ==> ok
  {
    ok := data.WriteCache(out, ZeroPage(), false, m.dataStart, []);
    assert [] + ZeroPage() == DataBytes(m.codec, pages, 0);
  }

  /** The two final calls of write_cache. */
  method SyncCaches(out: Output, desc: DataCache, data: DataCache, m: Plan, ghost pages: seq<Page>) returns (ok: bool)
    requires desc != data && DESC_SIZE * |pages| <= m.dataStart
    requires Dumped(out.file, desc.data, desc.offset, data.data, data.offset, m, pages, |pages|, |pages|)
    modifies out, desc, data
    ensures ok ==> Holds(out.file, DescStart(m, pages), DescBytes(m, pages, |pages|))
    ensures ok ==> Holds(out.file, m.dataStart, DataBytes(m.codec, pages, |pages|))
    ensures Within(old(out.file), out.file, DescStart(m, pages), DataEnd(m, pages))
    ensures Always(out.accepts) ==> ok
  {
    ghost var f0, lo := out.file, DescStart(m, pages);
    ghost var descs, datas := DescBytes(m, pages, |pages|), DataBytes(m.codec, pages, |pages|);
    ok := desc.WriteCache(out, [], true, lo, descs);
    WithinWider(f0, f0, out.file, lo, DataEnd(m, pages), lo, lo + |descs|);
    if !ok {
      return;
    }
    ghost var f1 := out.file;
    CachedElsewhere(f0, f1, lo, lo + |descs|, data.data, data.offset, m.dataStart, datas);
    CachedAll(f1, desc.offset, lo, descs);
    ok := data.WriteCache(out, [], true, m.dataStart, datas);
    WithinWider(f0, f1, out.file, lo, DataEnd(m, pages), m.dataStart, m.dataStart + |datas|);
    if ok {
      CachedAll(out.file, data.offset, m.dataStart, datas);
      HoldsElsewhere(f1, out.file, m.dataStart, m.dataStart + |datas|, lo, descs);
    }
  }

  lemma CachedAll(f: File, offset: nat, base: nat, stream: seq<byte>)
    requires Cached(f, [], offset, base, stream + [])
    ensures Holds(f, base, stream)
  {
  }
}
