/** bdrv_commit: the sectors of a copy-on-write layer are copied into its backing image while
    the guest goes on seeing the same contents (block.c). */
module BlockCommit {

  const COMMIT_BUF_SECTORS: nat := 2048

  /** The contents of a sector; ZERO is a sector of zeros. */
  type Sector = nat
  const ZERO: Sector := 0

  datatype Status = Ok | NoMedium | NotSupported | Busy | NoAccess | NoMemory | IoError

  /** What the guest sees: allocated sectors from the layer, others from the backing image,
      zeros behind its end. */
  function Visible(alloc: map<nat, Sector>, backing: seq<Sector>, i: nat): Sector {
    if i in alloc then alloc[i] else if i < |backing| then backing[i] else ZERO
  }

  function ViewOf(len: nat, alloc: map<nat, Sector>, backing: seq<Sector>): (v: seq<Sector>)
    ensures |v| == len
  {
    seq(len, i requires 0 <= i < len => Visible(alloc, backing, i))
  }

  /** The backing image with `buf` written at `sector`. */
  function Written(backing: seq<Sector>, sector: nat, buf: seq<Sector>): (b: seq<Sector>)
    requires sector + |buf| <= |backing|
    ensures |b| == |backing|
  {
    backing[..sector] + buf + backing[sector + |buf|..]
  }

  /** Writing where the layer is allocated does not show, whatever is written. */
  lemma WriteHidden(len: nat, alloc: map<nat, Sector>, backing: seq<Sector>, sector: nat, buf: seq<Sector>)
    requires sector + |buf| <= |backing| && forall i :: sector <= i < sector + |buf| ==> i in alloc
    ensures ViewOf(len, alloc, Written(backing, sector, buf)) == ViewOf(len, alloc, backing)
  {
  }

  /** The layer's sectors below `to` are in the backing image. */
  ghost predicate Copied(alloc: map<nat, Sector>, backing: seq<Sector>, to: nat) {
    forall i :: i in alloc && i < to ==> i < |backing| && backing[i] == alloc[i]
  }

  /** What bdrv_read returns. */
  function ReadRun(alloc: map<nat, Sector>, backing: seq<Sector>, sector: nat, n: nat): (buf: seq<Sector>)
    ensures |buf| == n
  {
    seq<Sector>(n, i requires 0 <= i < n => Visible(alloc, backing, sector + i))
  }

  lemma RunCopied(alloc: map<nat, Sector>, backing: seq<Sector>, sector: nat, n: nat)
    requires Copied(alloc, backing, sector) && sector + n <= |backing|
    ensures Copied(alloc, Written(backing, sector, ReadRun(alloc, backing, sector, n)), sector + n)
  {
    var buf := ReadRun(alloc, backing, sector, n);
    var b := Written(backing, sector, buf);
    forall i | i in alloc && i < sector + n ensures b[i] == alloc[i] {
      if i < sector {
        assert b[i] == backing[i];
      } else {
        var k := i - sector;
        assert b[i] == buf[k] == Visible(alloc, backing, sector + k);
      }
    }
  }

  /** Once everything is copied, allocation may go, wholly or in part, without showing. */
  lemma DropHidden(len: nat, alloc: map<nat, Sector>, alloc': map<nat, Sector>, backing: seq<Sector>)
    requires Copied(alloc, backing, len)
    requires forall i :: i in alloc' ==> i in alloc && alloc'[i] == alloc[i]
    ensures ViewOf(len, alloc', backing) == ViewOf(len, alloc, backing)
  {
  }

  lemma GrowHidden(len: nat, alloc: map<nat, Sector>, backing: seq<Sector>, more: nat)
    ensures ViewOf(len, alloc, backing + seq(more, _ => ZERO)) == ViewOf(len, alloc, backing)
  {
  }

  /** The backing image keeps every sector the layer does not have. */
  ghost predicate OnlyAllocated(before: seq<Sector>, after: seq<Sector>, alloc: map<nat, Sector>) {
    |before| <= |after| && forall i :: 0 <= i < |before| && i !in alloc ==> after[i] == before[i]
  }

  /** A layer and its backing image. `fails` says which of the calls to the drivers fail;
      `trace` collects what the guest sees after every change to either image. */
  class Layer {
    var len: nat
    var alloc: map<nat, Sector>
    var backing: seq<Sector>
    var readOnly: bool
    var calls: nat
    const fails: nat -> bool
    ghost var trace: seq<seq<Sector>>

    constructor (len: nat, alloc: map<nat, Sector>, backing: seq<Sector>, readOnly: bool, fails: nat -> bool)
      requires forall i :: i in alloc ==> i < len
      ensures Valid() && View() == ViewOf(len, alloc, backing) && trace == []
      ensures this.readOnly == readOnly && this.fails == fails && calls == 0
    {
      this.len, this.alloc, this.backing, this.readOnly, this.fails := len, alloc, backing, readOnly, fails;
      calls, trace := 0, [];
    }

    ghost function View(): seq<Sector>
      reads this
    {
      ViewOf(len, alloc, backing)
    }

    ghost predicate Valid()
      reads this
    {
      forall i :: i in alloc ==> i < len
    }

    /** No call to the drivers fails. */
    ghost predicate AllGood() {
      forall n :: !fails(n)
    }

    method Call() returns (ok: bool)
      modifies `calls
      ensures ok == !fails(old(calls)) && calls == old(calls) + 1
    {
      ok := !fails(calls);
      calls := calls + 1;
    }

    /** bdrv_getlength of the layer and of its backing image. */
    method Lengths() returns (ok: bool, length: nat, backingLength: nat)
      modifies `calls
      ensures ok ==> length == len && backingLength == |backing|
      ensures ok <==> !fails(old(calls)) && !fails(old(calls) + 1)
    {
      length, backingLength := 0, 0;
      ok := Call();
      if !ok {
        return;
      }
      length := len;
      ok := Call();
      if ok {
        backingLength := |backing|;
      }
    }

    /** bdrv_read of the layer. */
    method ReadLayer(sector: nat, n: nat) returns (ok: bool, buf: seq<Sector>)
      modifies `calls
      ensures ok ==> buf == ReadRun(alloc, backing, sector, n)
      ensures ok <==> !fails(old(calls))
    {
      buf := [];
      ok := Call();
      if ok {
        buf := ReadRun(alloc, backing, sector, n);
      }
    }

    /** bdrv_reopen of the backing image. */
    method Reopen(writable: bool) returns (ok: bool)
      modifies `calls, `readOnly
      ensures ok == !fails(old(calls)) && readOnly == if ok then !writable else old(readOnly)
      ensures AllGood() ==> ok
    {
      ok := Call();
      if ok {
        readOnly := !writable;
      }
    }

    /** bdrv_truncate of the backing image; the new sectors read as zeros. */
    method Truncate(size: nat) returns (ok: bool)
      requires !readOnly && size >= |backing|
      modifies `calls, `backing, `trace
      ensures View() == old(View())
      ensures if ok then |backing| == size && old(backing) <= backing else backing == old(backing)
      ensures AllGood() ==> ok
      ensures trace == old(trace) + [View()]
    {
      ok := Call();
      if ok {
        GrowHidden(len, alloc, backing, size - |backing|);
        backing := backing + seq(size - |backing|, _ => ZERO);
      }
      trace := trace + [View()];
    }

    /** bdrv_is_allocated: a run of at most `max` sectors with the same status. */
    method IsAllocated(sector: nat, max: nat) returns (ok: bool, inLayer: bool, n: nat)
      requires sector < len && max > 0
      modifies `calls
      ensures ok ==> 0 < n <= max && sector + n <= len
      ensures ok ==> forall i :: sector <= i < sector + n ==> (i in alloc <==> inLayer)
      ensures AllGood() ==> ok
    {
      inLayer, n := false, 0;
      ok := Call();
      if ok {
        inLayer := sector in alloc;
        assert forall i :: sector <= i < sector + 1 ==> (i in alloc <==> inLayer);
        n :| 0 < n <= max && sector + n <= len && forall i :: sector <= i < sector + n ==> (i in alloc <==> inLayer);
      }
    }

    /** bdrv_write to the backing image; a write that fails may leave anything in the
        sectors it was for. */
    method WriteBacking(sector: nat, buf: seq<Sector>) returns (ok: bool)
      requires !readOnly && sector + |buf| <= |backing| && forall i :: sector <= i < sector + |buf| ==> i in alloc
      modifies `calls, `backing, `trace
      ensures View() == old(View())
      ensures |backing| == old(|backing|)
      ensures ok ==> backing == Written(old(backing), sector, buf)
      ensures OnlyAllocated(old(backing), backing, alloc)
      ensures AllGood() ==> ok
      ensures trace == old(trace) + [View()]
    {
      ok := Call();
      var stored := buf;
      if !ok {
        stored :| |stored| == |buf|;
      }
      WriteHidden(len, alloc, backing, sector, stored);
      backing := Written(backing, sector, stored);
      trace := trace + [View()];
    }

    /** The driver's bdrv_make_empty; if it fails, some of the sectors may be gone. */
    method MakeEmpty() returns (ok: bool)
      requires Valid() && Copied(alloc, backing, len)
      modifies `calls, `alloc, `trace
      ensures Valid() && View() == old(View())
      ensures ok ==> alloc == map[]
      ensures AllGood() ==> ok
      ensures trace == old(trace) + [View()]
    {
      ok := Call();
      ghost var before := alloc;
      if ok {
        alloc := map[];
      } else {
        var left :| left <= alloc.Keys;
        alloc := map i | i in left :: alloc[i];
      }
      DropHidden(len, before, alloc, backing);
      trace := trace + [View()];
    }

    /** The guest saw the same at every step. */
    twostate predicate Steady()
      reads this
    {
      && View() == old(View()) && len == old(len) && Valid()
      && old(trace) <= trace && forall k :: |old(trace)| <= k < |trace| ==> trace[k] == old(View())
    }

    /** The copying loop. */
    method CopySectors() returns (ok: bool)
      requires Valid() && !readOnly && |backing| >= len
      modifies `calls, `backing, `trace
      ensures Steady() && |backing| == old(|backing|)
      ensures ok ==> Copied(alloc, backing, len)
      ensures OnlyAllocated(old(backing), backing, alloc)
      ensures AllGood() ==> ok
    {
      var sector := 0;
      while sector < len
        invariant sector <= len && |backing| == old(|backing|) && Steady() && Copied(alloc, backing, sector)
        invariant OnlyAllocated(old(backing), backing, alloc)
      {
        var inLayer: bool, n: nat;
        ok, inLayer, n := IsAllocated(sector, COMMIT_BUF_SECTORS);
        if !ok {
          return;
        }
        if inLayer {
          var buf: seq<Sector>;
          ok, buf := ReadLayer(sector, n);
          if !ok {
            return;
          }
          RunCopied(alloc, backing, sector, n);
          ok := WriteBacking(sector, buf);
          if !ok {
            return;
          }
        }
        sector := sector + n;
      }
      ok := true;
    }

    /** bdrv_commit between the reopening of the backing image and its undoing. */
    method CommitOpened(hasMakeEmpty: bool, memory: bool) returns (status: Status)
      requires Valid() && !readOnly
      modifies `calls, `alloc, `backing, `trace
      ensures Steady()
      ensures status == Ok ==> |backing| >= len && Copied(alloc, backing, len) && (hasMakeEmpty ==> alloc == map[])
      ensures status == Ok ==> backing[..len] == old(View())
      ensures OnlyAllocated(old(backing), backing, old(alloc))
      ensures fails(old(calls)) || fails(old(calls) + 1) ==> status == IoError && backing == old(backing)
      ensures AllGood() ==> status == if memory then Ok else NoMemory
    {
      var ok, length, backingLength := Lengths();
      if !ok {
        return IoError;
      }
      if length > backingLength {
        ok := Truncate(length);
        if !ok {
          return IoError;
        }
      }
      if !memory {
        return NoMemory;
      }
      ok := CopySectors();
      if !ok {
        return IoError;
      }
      if hasMakeEmpty {
        ok := MakeEmpty();
        if !ok {
          return IoError;
        }
      }
      BackingIsView(len, alloc, backing);
      return Ok;
    }

    /** bdrv_commit: whatever happens, the guest sees no change at any step; on success the
        backing image alone holds what the guest sees. */
    method Commit(medium: bool, hasBacking: bool, blocked: bool, hasMakeEmpty: bool, memory: bool)
      returns (status: Status)
      requires Valid()
      modifies `calls, `alloc, `backing, `readOnly, `trace
      ensures Steady()
      ensures status == Ok ==> |backing| >= len && backing[..len] == old(View()) && (hasMakeEmpty ==> alloc == map[])
      ensures !old(readOnly) ==> !readOnly
      ensures AllGood() ==> readOnly == old(readOnly)
      ensures OnlyAllocated(old(backing), backing, old(alloc))
      ensures medium && hasBacking && !blocked && old(readOnly) && fails(old(calls)) ==> status == NoAccess
      ensures if !medium then status == NoMedium else if !hasBacking then status == NotSupported
              else if blocked then status == Busy
              else AllGood() ==> status == if memory then Ok else NoMemory
      ensures !medium || !hasBacking || blocked ==> status != Ok && alloc == old(alloc) && backing == old(backing)
    {
      if !medium {
        return NoMedium;
      }
      if !hasBacking {
        return NotSupported;
      }
      if blocked {
        return Busy;
      }
      var ro := readOnly;
      if ro {
        var ok := Reopen(true);
        if !ok {
          return NoAccess;
        }
      }
      status := CommitOpened(hasMakeEmpty, memory);
      if ro {
        var _ := Reopen(false);
      }
    }
  }

  lemma BackingIsView(len: nat, alloc: map<nat, Sector>, backing: seq<Sector>)
    requires Copied(alloc, backing, len) && |backing| >= len
    ensures backing[..len] == ViewOf(len, alloc, backing)
  {
  }
}
