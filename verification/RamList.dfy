/** The list of RAM blocks: best-fit offsets, order by size, and a most-recently-used cache in
    front of the search (exec.c). */
module RamList {

  import opened Basics

  const RAM_ADDR_MAX: nat := 0xffff_ffff_ffff_ffff

  datatype Block = Block(id: nat, offset: nat, maxLength: nat)

  function End(b: Block): nat {
    b.offset + b.maxLength
  }

  predicate Apart(a: Block, b: Block) {
    End(a) <= b.offset || End(b) <= a.offset
  }

  predicate BlockOk(b: Block) {
    b.maxLength > 0 && End(b) <= RAM_ADDR_MAX
  }

  ghost predicate Disjoint(blocks: seq<Block>) {
    forall i, j :: 0 <= i < j < |blocks| ==> Apart(blocks[i], blocks[j])
  }

  ghost predicate Descending(blocks: seq<Block>) {
    forall i, j :: 0 <= i < j < |blocks| ==> blocks[i].maxLength >= blocks[j].maxLength
  }

  ghost predicate ListOk(blocks: seq<Block>) {
    && (forall i :: 0 <= i < |blocks| ==> BlockOk(blocks[i]))
    && Disjoint(blocks) && Descending(blocks)
  }

  // Lookup

  /** addr - block->offset < block->max_length, on 64-bit unsigned numbers. */
  predicate InBlock(addr: nat, b: Block) {
    (addr - b.offset) % (RAM_ADDR_MAX + 1) < b.maxLength
  }

  lemma InBlockMeans(addr: nat, b: Block)
    requires BlockOk(b) && addr <= RAM_ADDR_MAX
    ensures InBlock(addr, b) <==> b.offset <= addr < End(b)
  {
  }

  /** The linear search. */
  function Search(blocks: seq<Block>, addr: nat): Option<Block> {
    if blocks == [] then None
    else if blocks[0].offset <= addr < End(blocks[0]) then Some(blocks[0])
    else Search(blocks[1..], addr)
  }

  lemma {:induction false} SearchFinds(blocks: seq<Block>, addr: nat, i: nat)
    requires ListOk(blocks) && i < |blocks| && blocks[i].offset <= addr < End(blocks[i])
    ensures Search(blocks, addr) == Some(blocks[i])
  {
    if i > 0 {
      assert Apart(blocks[0], blocks[i]);
      assert ListOk(blocks[1..]) by { TailOk(blocks); }
      SearchFinds(blocks[1..], addr, i - 1);
    }
  }

  lemma TailOk(blocks: seq<Block>)
    requires ListOk(blocks) && blocks != []
    ensures ListOk(blocks[1..])
  {
  }

  lemma {:induction false} SearchFails(blocks: seq<Block>, addr: nat)
    requires forall i :: 0 <= i < |blocks| ==> !(blocks[i].offset <= addr < End(blocks[i]))
    ensures Search(blocks, addr).None?
  {
    if blocks != [] {
      assert !(blocks[0].offset <= addr < End(blocks[0]));
      SearchFails(blocks[1..], addr);
    }
  }

  // Offsets

  /** The start of the first block at or above `end`, or the top of the address space. */
  ghost function NextStart(blocks: seq<Block>, end: nat, n: nat): (next: nat)
    requires n <= |blocks|
  {
    if n == 0 then RAM_ADDR_MAX
    else
      var rest := NextStart(blocks, end, n - 1);
      if blocks[n - 1].offset >= end && blocks[n - 1].offset < rest then blocks[n - 1].offset else rest
  }

  lemma {:induction false} NextStartIs(blocks: seq<Block>, end: nat, n: nat)
    requires n <= |blocks| && end <= RAM_ADDR_MAX
    ensures end <= NextStart(blocks, end, n) <= RAM_ADDR_MAX
    ensures forall j :: 0 <= j < n && blocks[j].offset >= end ==> blocks[j].offset >= NextStart(blocks, end, n)
    ensures || NextStart(blocks, end, n) == RAM_ADDR_MAX
            || exists j :: 0 <= j < n && blocks[j].offset == NextStart(blocks, end, n)
  {
    if n > 0 {
      NextStartIs(blocks, end, n - 1);
    }
  }

  /** The free space behind block `i`. */
  ghost function Gap(blocks: seq<Block>, i: nat): int
    requires i < |blocks|
  {
    NextStart(blocks, End(blocks[i]), |blocks|) - End(blocks[i])
  }

  /** Block `i` is followed by the smallest gap that is large enough, the first of its size. */
  ghost predicate BestFit(blocks: seq<Block>, size: nat, i: nat) {
    && i < |blocks| && Gap(blocks, i) >= size
    && (forall j :: 0 <= j < |blocks| && Gap(blocks, j) >= size ==> Gap(blocks, j) >= Gap(blocks, i))
    && (forall j :: 0 <= j < i && Gap(blocks, j) >= size ==> Gap(blocks, j) > Gap(blocks, i))
  }

  /** The space behind block `i` up to the gap's end overlaps no block. */
  lemma GapFree(blocks: seq<Block>, i: nat, size: nat, b: Block)
    requires ListOk(blocks) && i < |blocks| && Gap(blocks, i) >= size
    requires b.offset == End(blocks[i]) && b.maxLength == size > 0
    ensures BlockOk(b) && forall j :: 0 <= j < |blocks| ==> Apart(blocks[j], b)
  {
    NextStartIs(blocks, End(blocks[i]), |blocks|);
    forall j | 0 <= j < |blocks| ensures Apart(blocks[j], b) {
      if blocks[j].offset < End(blocks[i]) && j != i {
        assert Apart(blocks[if i < j then i else j], blocks[if i < j then j else i]);
      }
    }
  }

  method NextBlockStart(blocks: seq<Block>, end: nat) returns (next: nat)
    ensures next == NextStart(blocks, end, |blocks|)
  {
    next := RAM_ADDR_MAX;
    for k := 0 to |blocks|
      invariant next == NextStart(blocks, end, k)
    {
      if blocks[k].offset >= end {
        next := if next < blocks[k].offset then next else blocks[k].offset;
      }
    }
  }

  /** What the loop of find_ram_offset knows after `n` blocks. */
  ghost predicate BestSoFar(blocks: seq<Block>, size: nat, n: nat, offset: nat, mingap: nat, best: nat) {
    && n <= |blocks|
    && (if offset == RAM_ADDR_MAX then
          mingap == RAM_ADDR_MAX && forall j :: 0 <= j < n ==> Gap(blocks, j) < size
        else
          && best < n && offset == End(blocks[best]) && mingap == Gap(blocks, best) >= size
          && (forall j :: 0 <= j < n && Gap(blocks, j) >= size ==> Gap(blocks, j) >= mingap)
          && (forall j :: 0 <= j < best && Gap(blocks, j) >= size ==> Gap(blocks, j) > mingap))
  }

  lemma GapBound(blocks: seq<Block>, i: nat)
    requires ListOk(blocks) && i < |blocks|
    ensures 0 <= Gap(blocks, i) < RAM_ADDR_MAX && End(blocks[i]) + Gap(blocks, i) <= RAM_ADDR_MAX
  {
    NextStartIs(blocks, End(blocks[i]), |blocks|);
  }

  /** find_ram_offset; None where the program aborts. */
  method FindRamOffset(blocks: seq<Block>, size: nat) returns (r: Option<nat>)
    requires ListOk(blocks) && 0 < size <= RAM_ADDR_MAX
    ensures blocks == [] ==> r == Some(0)
    ensures blocks != [] && r.Some? ==> exists i: nat :: BestFit(blocks, size, i) && r.value == End(blocks[i])
    ensures r.None? <==> blocks != [] && forall i :: 0 <= i < |blocks| ==> Gap(blocks, i) < size
  {
    if blocks == [] {
      return Some(0);
    }
    var offset: nat, mingap: nat := RAM_ADDR_MAX, RAM_ADDR_MAX;
    ghost var best := 0;
    for n := 0 to |blocks|
      invariant BestSoFar(blocks, size, n, offset, mingap, best)
    {
      var end := End(blocks[n]);
      var next := NextBlockStart(blocks, end);
      GapBound(blocks, n);
      assert next - end == Gap(blocks, n);
      if next - end >= size && next - end < mingap {
        offset := end;
        mingap := next - end;
        best := n;
      }
    }
    if offset == RAM_ADDR_MAX {
      return None;
    }
    assert BestFit(blocks, size, best);
    return Some(offset);
  }

  // Insertion and removal

  /** The list with `b` before the first smaller block. */
  function Inserted(blocks: seq<Block>, b: Block): seq<Block> {
    if blocks == [] then [b]
    else if blocks[0].maxLength < b.maxLength then [b] + blocks
    else [blocks[0]] + Inserted(blocks[1..], b)
  }

  /** The list without the block at `addr`. */
  function Removed(blocks: seq<Block>, addr: nat): seq<Block> {
    if blocks == [] then []
    else if blocks[0].offset == addr then blocks[1..]
    else [blocks[0]] + Removed(blocks[1..], addr)
  }

  lemma {:induction false} InsertedMembers(blocks: seq<Block>, b: Block)
    ensures forall x :: x in Inserted(blocks, b) <==> x == b || x in blocks
    ensures multiset(Inserted(blocks, b)) == multiset(blocks) + multiset{b}
  {
    if blocks != [] {
      assert blocks == [blocks[0]] + blocks[1..];
      InsertedMembers(blocks[1..], b);
    }
  }

  /** The new block goes before the first smaller one. */
  lemma {:induction false} InsertedAt(blocks: seq<Block>, b: Block) returns (i: nat)
    ensures i <= |blocks| && Inserted(blocks, b) == blocks[..i] + [b] + blocks[i..]
    ensures forall j :: 0 <= j < i ==> blocks[j].maxLength >= b.maxLength
    ensures i < |blocks| ==> blocks[i].maxLength < b.maxLength
  {
    i := 0;
    if blocks != [] && blocks[0].maxLength >= b.maxLength {
      var k := InsertedAt(blocks[1..], b);
      i := k + 1;
      assert blocks[..i] == [blocks[0]] + blocks[1..][..k] && blocks[i..] == blocks[1..][k..];
    }
  }

  lemma {:induction false} InsertedOk(blocks: seq<Block>, b: Block)
    requires ListOk(blocks) && BlockOk(b) && forall j :: 0 <= j < |blocks| ==> Apart(blocks[j], b)
    ensures ListOk(Inserted(blocks, b))
  {
    if blocks == [] || blocks[0].maxLength < b.maxLength {
      FirstOk(blocks, b);
    } else {
      TailOk(blocks);
      InsertedOk(blocks[1..], b);
      InsertedMembers(blocks[1..], b);
      assert blocks == [blocks[0]] + blocks[1..];
      ConsOk(blocks[0], Inserted(blocks[1..], b), blocks[1..], b);
    }
  }

  /** A block larger than all others goes first. */
  lemma FirstOk(blocks: seq<Block>, b: Block)
    requires ListOk(blocks) && BlockOk(b) && forall j :: 0 <= j < |blocks| ==> Apart(blocks[j], b)
    requires blocks != [] ==> blocks[0].maxLength < b.maxLength
    ensures ListOk([b] + blocks)
  {
    var l := [b] + blocks;
    forall i, j | 0 <= i < j < |l| ensures Apart(l[i], l[j]) && l[i].maxLength >= l[j].maxLength {
      assert l[j] == blocks[j - 1];
      if i > 0 {
        assert l[i] == blocks[i - 1];
      }
    }
  }

  lemma ConsOk(a: Block, rest: seq<Block>, blocks: seq<Block>, b: Block)
    requires ListOk([a] + blocks) && ListOk(rest) && Apart(a, b) && a.maxLength >= b.maxLength
    requires forall x :: x in rest <==> x == b || x in blocks
    ensures ListOk([a] + rest)
  {
    var l, was := [a] + rest, [a] + blocks;
    forall i, j | 0 <= i < j < |l| ensures Apart(l[i], l[j]) && l[i].maxLength >= l[j].maxLength {
      if i == 0 {
        assert l[j] in rest;
        if l[j] != b {
          var k :| 0 <= k < |blocks| && blocks[k] == l[j];
          assert Apart(was[0], was[k + 1]) && was[0].maxLength >= was[k + 1].maxLength;
        }
      } else {
        assert l[i] == rest[i - 1] && l[j] == rest[j - 1];
      }
    }
    assert BlockOk(was[0]);
  }

  lemma {:induction false} RemovedOk(blocks: seq<Block>, addr: nat)
    requires ListOk(blocks)
    ensures ListOk(Removed(blocks, addr))
    ensures forall x :: x in Removed(blocks, addr) <==> x in blocks && x.offset != addr
  {
    if blocks != [] {
      assert blocks == [blocks[0]] + blocks[1..];
      TailOk(blocks);
      RemovedOk(blocks[1..], addr);
      if blocks[0].offset == addr {
        forall x | x in blocks[1..] ensures x.offset != addr {
          var k :| 0 <= k < |blocks[1..]| && blocks[1..][k] == x;
          assert Apart(blocks[0], blocks[k + 1]) && BlockOk(blocks[k + 1]);
        }
      } else {
        ShrinkOk(blocks[0], blocks[1..], Removed(blocks[1..], addr));
      }
    }
  }

  lemma ShrinkOk(a: Block, blocks: seq<Block>, rest: seq<Block>)
    requires ListOk([a] + blocks) && ListOk(rest) && forall x :: x in rest ==> x in blocks
    ensures ListOk([a] + rest)
  {
    var l, was := [a] + rest, [a] + blocks;
    forall i, j | 0 <= i < j < |l| ensures Apart(l[i], l[j]) && l[i].maxLength >= l[j].maxLength {
      if i == 0 {
        assert l[j] in rest;
        var k :| 0 <= k < |blocks| && blocks[k] == l[j];
        assert Apart(was[0], was[k + 1]) && was[0].maxLength >= was[k + 1].maxLength;
      } else {
        assert l[i] == rest[i - 1] && l[j] == rest[j - 1];
      }
    }
    assert BlockOk(was[0]);
  }

  class RamBlocks {
    var blocks: seq<Block>
    var mru: Option<Block>
    var version: nat

    /** Blocks are disjoint and ordered by size, and the cached block is on the list. */
    ghost predicate Valid()
      reads this
    {
      ListOk(blocks) && (mru.Some? ==> mru.value in blocks)
    }

    constructor ()
      ensures Valid() && blocks == [] && mru.None? && version == 0
    {
      blocks, mru, version := [], None, 0;
    }

    /** qemu_get_ram_block: the cached lookup is the linear search; None where the program
        aborts. */
    method GetRamBlock(addr: nat) returns (r: Option<Block>)
      requires Valid() && addr <= RAM_ADDR_MAX
      modifies `mru
      ensures Valid() && r == Search(blocks, addr) && mru == if r.Some? then r else old(mru)
      ensures r.Some? ==> r.value in blocks && r.value.offset <= addr < End(r.value)
      ensures r.None? ==> forall b :: b in blocks ==> !(b.offset <= addr < End(b))
    {
      if mru.Some? && InBlock(addr, mru.value) {
        ghost var i :| 0 <= i < |blocks| && blocks[i] == mru.value;
        InBlockMeans(addr, mru.value);
        SearchFinds(blocks, addr, i);
        return mru;
      }
      for i := 0 to |blocks|
        invariant mru == old(mru) && forall j :: 0 <= j < i ==> !(blocks[j].offset <= addr < End(blocks[j]))
      {
        InBlockMeans(addr, blocks[i]);
        if InBlock(addr, blocks[i]) {
          SearchFinds(blocks, addr, i);
          mru := Some(blocks[i]);
          return mru;
        }
      }
      SearchFails(blocks, addr);
      return None;
    }

    /** The insertion loop of ram_block_add. */
    method Insert(b: Block)
      modifies `blocks
      ensures blocks == Inserted(old(blocks), b)
    {
      var i := 0;
      while i < |blocks| && blocks[i].maxLength >= b.maxLength
        invariant i <= |blocks| && Inserted(blocks, b) == blocks[..i] + Inserted(blocks[i..], b)
      {
        assert blocks[i..][1..] == blocks[i + 1..];
        assert blocks[..i + 1] == blocks[..i] + [blocks[i]];
        i := i + 1;
      }
      assert i == |blocks| ==> blocks[i..] == [] && blocks[..i] == blocks;
      blocks := blocks[..i] + [b] + blocks[i..];
      assert blocks == old(blocks)[..i] + ([b] + old(blocks)[i..]);
    }

    /** ram_block_add; `hostOk` is whether host memory could be had. None where the program
        aborts, Some(None) where it reports an error. */
    method RamBlockAdd(id: nat, maxLength: nat, hostOk: bool) returns (r: Option<Option<nat>>)
      requires Valid() && 0 < maxLength <= RAM_ADDR_MAX
      modifies this
      ensures Valid()
      ensures r.Some? && r.value.Some? ==>
                && hostOk && blocks == Inserted(old(blocks), Block(id, r.value.value, maxLength))
                && if old(blocks) == [] then r.value.value == 0
                   else exists i: nat :: BestFit(old(blocks), maxLength, i) && r.value.value == End(old(blocks)[i])
      ensures r == Some(None) ==> !hostOk
      ensures r.Some? && r.value.Some? ==> mru.None? && version == old(version) + 1
      ensures !(r.Some? && r.value.Some?) ==> blocks == old(blocks) && mru == old(mru) && version == old(version)
      ensures r.None? <==> old(blocks) != [] && forall i :: 0 <= i < |old(blocks)| ==> Gap(old(blocks), i) < maxLength
    {
      var offset := FindRamOffset(blocks, maxLength);
      if offset.None? {
        return None;
      }
      if !hostOk {
        return Some(None);
      }
      var b := Block(id, offset.value, maxLength);
      if blocks != [] {
        ghost var i: nat :| BestFit(blocks, maxLength, i) && offset.value == End(blocks[i]);
        GapFree(blocks, i, maxLength, b);
      }
      InsertedOk(blocks, b);
      Insert(b);
      mru := None;
      version := version + 1;
      return Some(offset);
    }

    /** qemu_ram_free: the block at that offset, if there is one, leaves the list. */
    method RamFree(addr: nat)
      requires Valid()
      modifies this
      ensures Valid() && blocks == Removed(old(blocks), addr)
      ensures forall x :: x in blocks <==> x in old(blocks) && x.offset != addr
      ensures if blocks == old(blocks) then mru == old(mru) && version == old(version)
              else mru.None? && version == old(version) + 1
    {
      RemovedOk(blocks, addr);
      Remove(addr);
    }

    method Remove(addr: nat)
      modifies this
      ensures blocks == Removed(old(blocks), addr)
      ensures if blocks == old(blocks) then mru == old(mru) && version == old(version)
              else mru.None? && version == old(version) + 1
    {
      for i := 0 to |blocks|
        invariant blocks == old(blocks) && mru == old(mru)
        invariant Removed(blocks, addr) == blocks[..i] + Removed(blocks[i..], addr)
      {
        assert blocks[i..][1..] == blocks[i + 1..];
        assert blocks[..i + 1] == blocks[..i] + [blocks[i]];
        if blocks[i].offset == addr {
          blocks := blocks[..i] + blocks[i + 1..];
          mru := None;
          version := version + 1;
          return;
        }
      }
      assert blocks[|blocks|..] == [] && blocks[..|blocks|] == blocks;
    }
  }
}
