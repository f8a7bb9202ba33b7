/** The guest-physical blocks a dump covers and the page iterator over them (dump.c). */
module GuestPages {

  import opened Basics

  const PAGE: nat := 4096

  /** GuestPhysBlock: guest addresses [start, end) and the bytes behind host_addr. */
  datatype Block = Block(start: nat, end: nat, host: seq<byte>)

  datatype Page = Page(pfn: nat, data: seq<byte>)

  predicate BlockOk(b: Block) {
    b.start % PAGE == 0 && b.end % PAGE == 0 && b.start < b.end && |b.host| == b.end - b.start
  }

  /** What the block list promises: page-aligned, non-empty blocks in rising order. */
  predicate BlocksOk(blocks: seq<Block>) {
    && (forall i :: 0 <= i < |blocks| ==> BlockOk(blocks[i]))
    && (forall i, j :: 0 <= i < j < |blocks| ==> blocks[i].end <= blocks[j].start)
  }

  function FirstPfn(b: Block): nat {
    b.start / PAGE
  }

  function PageCount(b: Block): nat
    requires BlockOk(b)
  {
    b.end / PAGE - b.start / PAGE
  }

  function PageOf(b: Block, i: nat): (p: Page)
    requires BlockOk(b) && i < PageCount(b)
    ensures |p.data| == PAGE
  {
    Page(FirstPfn(b) + i, b.host[i * PAGE..i * PAGE + PAGE])
  }

  /** The contents of page `pfn` of the guest, if some block covers it. */
  function GuestPage(blocks: seq<Block>, pfn: nat): (r: Option<seq<byte>>)
    requires BlocksOk(blocks)
    ensures r.Some? ==> |r.value| == PAGE
  {
    if blocks == [] then None
    else
      var n := |blocks| - 1;
      var b := blocks[n];
      if FirstPfn(b) <= pfn < FirstPfn(b) + PageCount(b) then Some(PageOf(b, pfn - FirstPfn(b)).data)
      else GuestPage(blocks[..n], pfn)
  }

  /** All pages, in the order of the iterator. */
  function Pages(blocks: seq<Block>): (ps: seq<Page>)
    requires BlocksOk(blocks)
    ensures forall k :: 0 <= k < |ps| ==> |ps[k].data| == PAGE
  {
    if blocks == [] then []
    else
      var n := |blocks| - 1;
      Pages(blocks[..n]) + BlockPages(blocks[n])
  }

  function BlockPages(b: Block): (ps: seq<Page>)
    requires BlockOk(b)
    ensures |ps| == PageCount(b)
    ensures forall k :: 0 <= k < |ps| ==> |ps[k].data| == PAGE
  {
    seq(PageCount(b), i requires 0 <= i < PageCount(b) => PageOf(b, i))
  }

  function PagesBefore(blocks: seq<Block>, n: nat): nat
    requires BlocksOk(blocks) && n <= |blocks|
  {
    |Pages(blocks[..n])|
  }

  lemma {:induction false} PagesPrefix(blocks: seq<Block>, n: nat)
    requires BlocksOk(blocks) && n <= |blocks|
    ensures Pages(blocks[..n]) <= Pages(blocks)
  {
    if n == |blocks| {
      assert blocks[..n] == blocks;
    } else {
      var m := |blocks| - 1;
      assert blocks[..m][..n] == blocks[..n];
      PagesPrefix(blocks[..m], n);
      assert Pages(blocks[..m]) <= Pages(blocks);
    }
  }

  lemma PagesAt(blocks: seq<Block>, n: nat, i: nat)
    requires BlocksOk(blocks) && n < |blocks| && i < PageCount(blocks[n])
    ensures PagesBefore(blocks, n) + i < |Pages(blocks)|
    ensures Pages(blocks)[PagesBefore(blocks, n) + i] == BlockPages(blocks[n])[i]
  {
    var head, tail := Pages(blocks[..n]), BlockPages(blocks[n]);
    assert blocks[..n + 1][..n] == blocks[..n];
    assert Pages(blocks[..n + 1]) == head + tail;
    PagesPrefix(blocks, n + 1);
  }

  lemma PagesBeforeNext(blocks: seq<Block>, n: nat)
    requires BlocksOk(blocks) && n < |blocks|
    ensures PagesBefore(blocks, n + 1) == PagesBefore(blocks, n) + PageCount(blocks[n])
    ensures PagesBefore(blocks, |blocks|) == |Pages(blocks)|
  {
    assert blocks[..n + 1][..n] == blocks[..n];
    assert blocks[..|blocks|] == blocks;
  }

  /** Below `pfn` end the frame numbers of the blocks that end there. */
  lemma {:induction false} PagesBelow(blocks: seq<Block>, bound: nat)
    requires BlocksOk(blocks)
    requires forall i :: 0 <= i < |blocks| ==> blocks[i].end <= bound
    ensures forall k :: 0 <= k < |Pages(blocks)| ==> Pages(blocks)[k].pfn * PAGE < bound
  {
    if blocks != [] {
      var n := |blocks| - 1;
      PagesBelow(blocks[..n], bound);
    }
  }

  /** The iterator visits the frames in rising order, each once. */
  lemma {:induction false} PagesRise(blocks: seq<Block>)
    requires BlocksOk(blocks)
    ensures forall j, k :: 0 <= j < k < |Pages(blocks)| ==> Pages(blocks)[j].pfn < Pages(blocks)[k].pfn
  {
    if blocks != [] {
      var n := |blocks| - 1;
      PagesRise(blocks[..n]);
      PagesBelow(blocks[..n], blocks[n].start);
      var b := BlockPages(blocks[n]);
      assert forall k :: 0 <= k < |b| ==> b[k].pfn == FirstPfn(blocks[n]) + k;
    }
  }

  /** The visited pages are exactly the pages of the guest. */
  lemma {:induction false} PagesAreGuestPages(blocks: seq<Block>, pfn: nat)
    requires BlocksOk(blocks)
    ensures GuestPage(blocks, pfn).None? ==> forall k :: 0 <= k < |Pages(blocks)| ==> Pages(blocks)[k].pfn != pfn
    ensures GuestPage(blocks, pfn).Some? ==> Page(pfn, GuestPage(blocks, pfn).value) in Pages(blocks)
  {
    if blocks != [] {
      var n := |blocks| - 1;
      var b := blocks[n];
      PagesAreGuestPages(blocks[..n], pfn);
      if FirstPfn(b) <= pfn < FirstPfn(b) + PageCount(b) {
        assert BlockPages(b)[pfn - FirstPfn(b)] == PageOf(b, pfn - FirstPfn(b));
      }
    }
  }

  /** Page `pfn` is the bytes of the guest from address pfn * PAGE on. */
  lemma {:induction false} GuestPageMeans(blocks: seq<Block>, pfn: nat)
    requires BlocksOk(blocks)
    ensures GuestPage(blocks, pfn).Some? ==> exists i :: 0 <= i < |blocks| && HoldsPage(blocks[i], pfn)
    ensures forall i :: 0 <= i < |blocks| && HoldsPage(blocks[i], pfn) ==>
              var from := pfn * PAGE - blocks[i].start;
              GuestPage(blocks, pfn) == Some(blocks[i].host[from..from + PAGE])
  {
    if blocks != [] {
      var n := |blocks| - 1;
      var b := blocks[n];
      GuestPageMeans(blocks[..n], pfn);
      PageInBlock(b, pfn);
      if GuestPage(blocks[..n], pfn).Some? {
        var i :| 0 <= i < n && HoldsPage(blocks[..n][i], pfn);
        assert blocks[i].end <= b.start;
      }
    }
  }

  /** The block has all the addresses of the page. */
  predicate HoldsPage(b: Block, pfn: nat) {
    BlockOk(b) && b.start <= pfn * PAGE && pfn * PAGE + PAGE <= b.end
  }

  /** The place of the iterator: in block `block`, at frame `pfn`. */
  ghost predicate At(blocks: seq<Block>, block: nat, pfn: nat, k: nat)
    requires BlocksOk(blocks)
  {
    && block < |blocks|
    && FirstPfn(blocks[block]) <= pfn < FirstPfn(blocks[block]) + PageCount(blocks[block])
    && k == PagesBefore(blocks, block) + (pfn - FirstPfn(blocks[block]))
  }

  /** The iterator stands at page `k` and hands out its contents. */
  ghost predicate Reached(blocks: seq<Block>, block: Option<nat>, pfn: nat, buf: seq<byte>, k: nat)
    requires BlocksOk(blocks)
  {
    && block.Some? && At(blocks, block.value, pfn, k)
    && k < |Pages(blocks)| && Pages(blocks)[k] == Page(pfn, buf)
  }

  lemma AtPage(blocks: seq<Block>, block: nat, pfn: nat, k: nat)
    requires BlocksOk(blocks) && At(blocks, block, pfn, k)
    ensures Reached(blocks, Some(block), pfn, PageOf(blocks[block], pfn - FirstPfn(blocks[block])).data, k)
  {
    var i := pfn - FirstPfn(blocks[block]);
    PagesAt(blocks, block, i);
    assert BlockPages(blocks[block])[i] == PageOf(blocks[block], i);
  }

  /** A block holds the page at `addr` exactly if its frame number lies in the block. */
  lemma PageInBlock(b: Block, pfn: nat)
    requires BlockOk(b)
    ensures (pfn * PAGE >= b.start && pfn * PAGE + PAGE <= b.end) <==> FirstPfn(b) <= pfn < FirstPfn(b) + PageCount(b)
    ensures FirstPfn(b) <= pfn < FirstPfn(b) + PageCount(b) ==>
              (pfn - FirstPfn(b)) * PAGE == pfn * PAGE - b.start
  {
  }

  lemma AtFirst(blocks: seq<Block>, n: nat)
    requires BlocksOk(blocks) && n < |blocks|
    ensures Reached(blocks, Some(n), FirstPfn(blocks[n]), blocks[n].host[..PAGE], PagesBefore(blocks, n))
  {
    assert PageCount(blocks[n]) > 0;
    AtPage(blocks, n, FirstPfn(blocks[n]), PagesBefore(blocks, n));
  }

  /** The next page is in the same block. */
  lemma SameBlock(blocks: seq<Block>, n: nat, pfn: nat, k: nat, addr: nat)
    requires BlocksOk(blocks) && At(blocks, n, pfn, k)
    requires addr == (pfn + 1) * PAGE && addr >= blocks[n].start && addr + PAGE <= blocks[n].end
    ensures var from := addr - blocks[n].start;
            Reached(blocks, Some(n), pfn + 1, blocks[n].host[from..from + PAGE], k + 1)
  {
    PageInBlock(blocks[n], pfn + 1);
    AtPage(blocks, n, pfn + 1, k + 1);
  }

  /** After the last page of block `n` come the pages of the blocks behind it. */
  lemma LastOfBlock(blocks: seq<Block>, n: nat, pfn: nat, k: nat, addr: nat)
    requires BlocksOk(blocks) && At(blocks, n, pfn, k)
    requires addr == (pfn + 1) * PAGE && !(addr >= blocks[n].start && addr + PAGE <= blocks[n].end)
    ensures k + 1 == PagesBefore(blocks, n + 1)
  {
    PageInBlock(blocks[n], pfn + 1);
    PagesBeforeNext(blocks, n);
  }

  /** The next page is the first page of the next block, or there is none. */
  lemma NextBlock(blocks: seq<Block>, n: nat, k: nat)
    requires BlocksOk(blocks) && n < |blocks| && k + 1 == PagesBefore(blocks, n + 1)
    ensures n + 1 == |blocks| ==> k + 1 == |Pages(blocks)|
    ensures n + 1 < |blocks| ==>
              Reached(blocks, Some(n + 1), FirstPfn(blocks[n + 1]), blocks[n + 1].host[..PAGE], k + 1)
  {
    if n + 1 < |blocks| {
      AtFirst(blocks, n + 1);
    } else {
      assert blocks[..n + 1] == blocks;
    }
  }

  /** get_next_page: from page `k` to page `k + 1`, or from nowhere to page 0. */
  method GetNextPage(blocks: seq<Block>, block: Option<nat>, pfn: nat, ghost k: nat)
    returns (more: bool, block': Option<nat>, pfn': nat, buf: seq<byte>)
    requires BlocksOk(blocks) && blocks != []
    requires block.Some? ==> At(blocks, block.value, pfn, k)
    ensures var next := if block.None? then 0 else k + 1;
            && more == (next < |Pages(blocks)|)
            && (more ==> Reached(blocks, block', pfn', buf, next))
  {
    if block.None? {
      AtFirst(blocks, 0);
      return true, Some(0), blocks[0].start / PAGE, blocks[0].host[..PAGE];
    }
    var n := block.value;
    var b := blocks[n];
    pfn' := pfn + 1;
    var addr := pfn' * PAGE;
    if addr >= b.start && addr + PAGE <= b.end {
      SameBlock(blocks, n, pfn, k, addr);
      return true, block, pfn', b.host[addr - b.start..addr - b.start + PAGE];
    }
    LastOfBlock(blocks, n, pfn, k, addr);
    NextBlock(blocks, n, k);
    if n + 1 == |blocks| {
      return false, None, pfn', [];
    }
    return true, Some(n + 1), blocks[n + 1].start / PAGE, blocks[n + 1].host[..PAGE];
  }
}
