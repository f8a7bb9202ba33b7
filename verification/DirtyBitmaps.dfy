/** The dirty bitmaps of a block device: freezing a bitmap behind a successor, and giving way
    to it or taking it back (block.c). */
module DirtyBitmaps {

  import opened Basics

  type Id = nat

  /** `bits` are granules of `gran` sectors. */
  datatype Bitmap = Bitmap(name: Option<string>, bits: set<nat>, gran: nat, disabled: bool, successor: Option<Id>)

  predicate InRange(gran: nat, sector: nat, n: nat, k: nat)
    requires gran > 0
  {
    n > 0 && sector / gran <= k <= (sector + n - 1) / gran
  }

  /** The granules hbitmap_set marks for `n` sectors from `sector` on. */
  function Granules(gran: nat, sector: nat, n: nat): set<nat>
    requires gran > 0
  {
    set k: nat | k < (sector + n) / gran + 1 && InRange(gran, sector, n, k)
  }

  lemma ProductLess(g: nat, q: nat, r: nat)
    requires g * q < g * r
    ensures q < r
  {
  }

  lemma Quotient(a: nat, b: nat, g: nat)
    requires a <= b && g > 0
    ensures a / g <= b / g
  {
    var q, p := a / g, b / g;
    assert g * q <= a && b < g * p + g;
    assert g * p + g == g * (p + 1);
    ProductLess(g, q, p + 1);
  }

  /** Every sector of a write lies in a marked granule. */
  lemma SectorMarked(gran: nat, sector: nat, n: nat, s: nat)
    requires gran > 0 && sector <= s < sector + n
    ensures s / gran in Granules(gran, sector, n)
  {
    Quotient(sector, s, gran);
    Quotient(s, sector + n - 1, gran);
    Quotient(s, sector + n, gran);
  }

  /** A granule is marked exactly if it has a sector of the write. */
  lemma GranulesExact(gran: nat, sector: nat, n: nat, k: nat)
    requires gran > 0
    ensures k in Granules(gran, sector, n) <==> exists s: nat :: sector <= s < sector + n && s / gran == k
  {
    if s: nat :| sector <= s < sector + n && s / gran == k {
      SectorMarked(gran, sector, n, s);
    }
    if k in Granules(gran, sector, n) {
      var s := if k * gran < sector then sector else k * gran;
      FirstSector(gran, sector, n, k);
      assert sector <= s < sector + n && s / gran == k;
    }
  }

  lemma FirstSector(gran: nat, sector: nat, n: nat, k: nat)
    requires gran > 0 && InRange(gran, sector, n, k)
    ensures var s := if k * gran < sector then sector else k * gran; sector <= s < sector + n && s / gran == k
  {
    DivProduct(k, gran);
    if k * gran < sector {
      Quotient(k * gran, sector, gran);
    } else {
      FloorBound(sector + n - 1, gran, k);
    }
  }

  lemma FloorBound(last: nat, g: nat, k: nat)
    requires g > 0 && k <= last / g
    ensures k * g <= last
  {
    var q := last / g;
    assert q * g <= last;
    Product(k, q, g);
  }

  lemma Product(k: nat, q: nat, g: nat)
    requires k <= q
    ensures k * g <= q * g
  {
  }

  lemma DivProduct(k: nat, g: nat)
    requires g > 0
    ensures k * g / g == k
  {
    var q := k * g / g;
    assert q * g <= k * g < q * g + g;
    ProductLess(g, q, k + 1);
    ProductLess(g, k, q + 1);
  }

  predicate Enabled(b: Bitmap) {
    !(b.disabled || b.successor.Some?)
  }

  type Bitmaps = map<Id, Bitmap>

  ghost predicate SuccessorOk(m: Bitmaps, p: Id)
    requires p in m && m[p].successor.Some?
  {
    var c := m[p].successor.value;
    && c in m && c != p && m[c].successor.None? && m[c].name.None?
    && m[c].gran == m[p].gran && m[c].disabled == m[p].disabled
  }

  ghost predicate Shape(m: Bitmaps) {
    && (forall x :: x in m ==> m[x].gran > 0)
    && (forall p :: p in m && m[p].successor.Some? ==> SuccessorOk(m, p))
    && (forall p, q :: p in m && q in m && m[p].successor.Some? && m[p].successor == m[q].successor ==> p == q)
  }

  ghost predicate NamesUnique(m: Bitmaps) {
    forall x, y :: x in m && y in m && m[x].name.Some? && m[x].name == m[y].name ==> x == y
  }

  /** `log` has, for each bitmap somebody holds, the granules written since its last clear
      while it was not disabled, and `since` those written since it was frozen. Successors
      are held by nobody until they take over. */
  ghost predicate HeldOk(m: Bitmaps, log: map<Id, set<nat>>, since: map<Id, set<nat>>, x: Id)
    requires x in log
  {
    && x in m
    && match m[x].successor
       case None => m[x].bits == log[x]
       case Some(c) => c in m && c !in log && x in since && m[x].bits + m[c].bits == log[x] && m[c].bits == since[x]
  }

  ghost predicate StateOk(m: Bitmaps, log: map<Id, set<nat>>, since: map<Id, set<nat>>) {
    && Shape(m) && NamesUnique(m)
    && (forall x :: x in log ==> HeldOk(m, log, since, x))
    && (forall p :: p in m && m[p].successor.Some? ==> p in log)
  }

  // Operations

  function Created(m: Bitmaps, id: Id, name: Option<string>, gran: nat): Bitmaps {
    m[id := Bitmap(name, {}, gran, false, None)]
  }

  function FrozenBehind(m: Bitmaps, x: Id, child: Id): Bitmaps
    requires x in m
  {
    m[child := Bitmap(None, {}, m[x].gran, m[x].disabled, None)][x := m[x].(successor := Some(child))]
  }

  function Abdicated(m: Bitmaps, x: Id): Bitmaps
    requires x in m && m[x].successor.Some? && m[x].successor.value in m
  {
    var c := m[x].successor.value;
    m[c := m[c].(name := m[x].name)] - {x}
  }

  function Reclaimed(m: Bitmaps, x: Id): Bitmaps
    requires x in m && m[x].successor.Some? && m[x].successor.value in m
  {
    var c := m[x].successor.value;
    m[x := m[x].(bits := m[x].bits + m[c].bits, successor := None)] - {c}
  }

  function Marked(b: Bitmap, sector: nat, n: nat): Bitmap
    requires b.gran > 0
  {
    if Enabled(b) then b.(bits := b.bits + Granules(b.gran, sector, n)) else b
  }

  function Dirtied(m: Bitmaps, sector: nat, n: nat): Bitmaps
    requires forall x :: x in m ==> m[x].gran > 0
  {
    map x | x in m :: Marked(m[x], sector, n)
  }

  /** The log after a write: every bitmap that is not disabled notes it, frozen or not. */
  ghost function Logged(m: Bitmaps, log: map<Id, set<nat>>, sector: nat, n: nat): map<Id, set<nat>>
    requires forall x :: x in m ==> m[x].gran > 0
  {
    map x | x in log :: if x in m && !m[x].disabled then log[x] + Granules(m[x].gran, sector, n) else log[x]
  }

  lemma CreatedShape(m: Bitmaps, id: Id, name: Option<string>, gran: nat)
    requires Shape(m) && NamesUnique(m) && id !in m && gran > 0
    requires name.Some? ==> forall x :: x in m ==> m[x].name != name
    ensures Shape(Created(m, id, name, gran)) && NamesUnique(Created(m, id, name, gran))
  {
  }

  lemma CreatedOk(m: Bitmaps, log: map<Id, set<nat>>, since: map<Id, set<nat>>, id: Id, name: Option<string>, gran: nat)
    requires StateOk(m, log, since) && id !in m && gran > 0
    requires name.Some? ==> forall x :: x in m ==> m[x].name != name
    ensures StateOk(Created(m, id, name, gran), log[id := {}], since)
  {
    var m', log' := Created(m, id, name, gran), log[id := {}];
    CreatedShape(m, id, name, gran);
    forall x | x in log' ensures HeldOk(m', log', since, x) {
      assert x != id ==> HeldOk(m, log, since, x);
    }
  }

  lemma FrozenShape(m: Bitmaps, x: Id, child: Id)
    requires Shape(m) && NamesUnique(m) && x in m && m[x].successor.None? && child !in m
    requires forall p :: p in m && m[p].successor.Some? ==> m[p].successor.value != x
    ensures Shape(FrozenBehind(m, x, child)) && NamesUnique(FrozenBehind(m, x, child))
  {
    var m' := FrozenBehind(m, x, child);
    forall p | p in m' && m'[p].successor.Some? ensures SuccessorOk(m', p) {
      assert p != x ==> SuccessorOk(m, p);
    }
  }

  lemma FrozenOk(m: Bitmaps, log: map<Id, set<nat>>, since: map<Id, set<nat>>, x: Id, child: Id)
    requires StateOk(m, log, since) && x in log && m[x].successor.None? && child !in m
    ensures StateOk(FrozenBehind(m, x, child), log, since[x := {}])
  {
    var m' := FrozenBehind(m, x, child);
    forall p | p in m && m[p].successor.Some? ensures m[p].successor.value != x {
      assert HeldOk(m, log, since, p);
    }
    FrozenShape(m, x, child);
    forall y | y in log ensures HeldOk(m', log, since[x := {}], y) {
      assert HeldOk(m, log, since, y);
    }
  }

  lemma AbdicatedShape(m: Bitmaps, x: Id, c: Id)
    requires Shape(m) && NamesUnique(m) && x in m && m[x].successor == Some(c)
    requires forall p :: p in m && m[p].successor.Some? ==> m[p].successor.value != x
    ensures c in m && Shape(Abdicated(m, x)) && NamesUnique(Abdicated(m, x))
  {
  }

  lemma AbdicatedOk(m: Bitmaps, log: map<Id, set<nat>>, since: map<Id, set<nat>>, x: Id, c: Id)
    requires StateOk(m, log, since) && x in log && m[x].successor == Some(c)
    ensures x in since && c in m
    ensures StateOk(Abdicated(m, x), log[c := since[x]] - {x}, since)
  {
    assert HeldOk(m, log, since, x);
    forall p | p in m && m[p].successor.Some? ensures m[p].successor.value != x {
      assert HeldOk(m, log, since, p);
    }
    AbdicatedShape(m, x, c);
    var m', log' := Abdicated(m, x), log[c := since[x]] - {x};
    forall y | y in log' ensures HeldOk(m', log', since, y) {
      assert y != c ==> HeldOk(m, log, since, y);
    }
  }

  lemma ReclaimedShape(m: Bitmaps, x: Id, c: Id)
    requires Shape(m) && NamesUnique(m) && x in m && m[x].successor == Some(c)
    ensures c in m && Shape(Reclaimed(m, x)) && NamesUnique(Reclaimed(m, x))
  {
  }

  lemma ReclaimedOk(m: Bitmaps, log: map<Id, set<nat>>, since: map<Id, set<nat>>, x: Id, c: Id)
    requires StateOk(m, log, since) && x in log && m[x].successor == Some(c)
    ensures c in m && StateOk(Reclaimed(m, x), log, since)
  {
    ReclaimedShape(m, x, c);
    var m' := Reclaimed(m, x);
    assert HeldOk(m, log, since, x);
    forall y | y in log ensures HeldOk(m', log, since, y) {
      assert HeldOk(m, log, since, y);
    }
  }

  lemma DirtiedShape(m: Bitmaps, sector: nat, n: nat)
    requires Shape(m) && NamesUnique(m)
    ensures Shape(Dirtied(m, sector, n)) && NamesUnique(Dirtied(m, sector, n))
  {
  }

  lemma DirtiedHeld(m: Bitmaps, log: map<Id, set<nat>>, since: map<Id, set<nat>>, sector: nat, n: nat, x: Id)
    requires Shape(m) && x in log && HeldOk(m, log, since, x)
    ensures HeldOk(Dirtied(m, sector, n), Logged(m, log, sector, n), Logged(m, since, sector, n), x)
  {
  }

  lemma DirtiedOk(m: Bitmaps, log: map<Id, set<nat>>, since: map<Id, set<nat>>, sector: nat, n: nat)
    requires StateOk(m, log, since)
    ensures StateOk(Dirtied(m, sector, n), Logged(m, log, sector, n), Logged(m, since, sector, n))
  {
    DirtiedShape(m, sector, n);
    forall x | x in log
      ensures HeldOk(Dirtied(m, sector, n), Logged(m, log, sector, n), Logged(m, since, sector, n), x)
    {
      DirtiedHeld(m, log, since, sector, n, x);
    }
  }

  /** Clearing all, or the granules of some sectors. */
  function Without(b: Bitmap, bits: set<nat>): Bitmap {
    b.(bits := b.bits - bits)
  }

  lemma ResetOk(m: Bitmaps, log: map<Id, set<nat>>, since: map<Id, set<nat>>, x: Id, bits: set<nat>, disabled: bool)
    requires StateOk(m, log, since) && x in log && m[x].successor.None?
    ensures StateOk(m[x := Without(m[x], bits).(disabled := disabled)], log[x := log[x] - bits], since)
  {
  }

  lemma ReleasedOk(m: Bitmaps, log: map<Id, set<nat>>, since: map<Id, set<nat>>, x: Id)
    requires StateOk(m, log, since) && x in log && m[x].successor.None?
    ensures StateOk(m - {x}, log - {x}, since)
  {
  }

  class Device {
    var bitmaps: Bitmaps
    ghost var log: map<Id, set<nat>>
    ghost var since: map<Id, set<nat>>

    ghost predicate Valid()
      reads this
    {
      StateOk(bitmaps, log, since)
    }

    constructor ()
      ensures Valid() && bitmaps == map[] && log == map[] && since == map[]
    {
      bitmaps, log, since := map[], map[], map[];
    }

    /** bdrv_find_dirty_bitmap */
    method Find(name: string) returns (r: Option<Id>)
      requires Valid()
      ensures r.Some? ==> r.value in bitmaps && bitmaps[r.value].name == Some(name)
      ensures forall x :: x in bitmaps && bitmaps[x].name == Some(name) ==> r == Some(x)
      ensures r.None? ==> forall x :: x in bitmaps ==> bitmaps[x].name != Some(name)
    {
      var todo := bitmaps.Keys;
      while todo != {}
        invariant todo <= bitmaps.Keys
        invariant forall x :: x in bitmaps && x !in todo ==> bitmaps[x].name != Some(name)
        decreases |todo|
      {
        var x :| x in todo;
        if bitmaps[x].name == Some(name) {
          return Some(x);
        }
        todo := todo - {x};
      }
      return None;
    }

    /** bdrv_create_dirty_bitmap: refuses a name in use, and a device whose length `nbSectors` is
        negative because it could not be read. */
    method Create(id: Id, name: Option<string>, gran: nat, nbSectors: int) returns (ok: bool)
      requires Valid() && id !in bitmaps && gran > 0
      modifies this
      ensures Valid()
      ensures ok <==> nbSectors >= 0 &&
                      (name.None? || forall x :: x in old(bitmaps) ==> old(bitmaps)[x].name != name)
      ensures bitmaps == if ok then Created(old(bitmaps), id, name, gran) else old(bitmaps)
      ensures ok ==> id in bitmaps && bitmaps[id] == Bitmap(name, {}, gran, false, None)
      ensures log == if ok then old(log)[id := {}] else old(log)
    {
      if name.Some? {
        var found := Find(name.value);
        if found.Some? {
          return false;
        }
      }
      if nbSectors < 0 {
        return false;
      }
      CreatedOk(bitmaps, log, since, id, name, gran);
      bitmaps, log := Created(bitmaps, id, name, gran), log[id := {}];
      return true;
    }

    /** bdrv_dirty_bitmap_create_successor: refuses a frozen bitmap, and fails if the anonymous
        child cannot be created. */
    method CreateSuccessor(x: Id, child: Id, nbSectors: int) returns (ok: bool)
      requires Valid() && x in log && child !in bitmaps
      modifies this
      ensures Valid() && log == old(log)
      ensures ok <==> old(bitmaps)[x].successor.None? && nbSectors >= 0
      ensures bitmaps == if ok then FrozenBehind(old(bitmaps), x, child) else old(bitmaps)
      ensures since == if ok then old(since)[x := {}] else old(since)
      ensures ok ==> !Enabled(bitmaps[x]) && bitmaps[x].bits == old(bitmaps)[x].bits
      ensures ok ==> bitmaps[child].name.None? && bitmaps[child].bits == {}
                     && Enabled(bitmaps[child]) == old(Enabled(bitmaps[x]))
    {
      assert HeldOk(bitmaps, log, since, x);
      if bitmaps[x].successor.Some? || nbSectors < 0 {
        return false;
      }
      FrozenOk(bitmaps, log, since, x, child);
      bitmaps, since := FrozenBehind(bitmaps, x, child), since[x := {}];
      return true;
    }

    /** bdrv_dirty_bitmap_abdicate: the successor takes over the name, holding exactly the
        writes since the freeze. */
    method Abdicate(x: Id) returns (r: Option<Id>)
      requires Valid() && x in log
      modifies this
      ensures Valid()
      ensures r == old(bitmaps)[x].successor
      ensures r.Some? ==>
                && x in old(since) && bitmaps.Keys == old(bitmaps).Keys - {x}
                && bitmaps[r.value].bits == old(since)[x]
                && bitmaps[r.value] == old(bitmaps)[r.value].(name := old(bitmaps)[x].name)
                && (forall y :: y in bitmaps && y != r.value ==> bitmaps[y] == old(bitmaps)[y])
                && log == old(log)[r.value := old(since)[x]] - {x}
      ensures r.None? ==> bitmaps == old(bitmaps) && log == old(log)
    {
      assert HeldOk(bitmaps, log, since, x);
      r := bitmaps[x].successor;
      if r.Some? {
        AbdicatedOk(bitmaps, log, since, x, r.value);
        bitmaps, log := Abdicated(bitmaps, x), log[r.value := since[x]] - {x};
      }
    }

    /** bdrv_reclaim_dirty_bitmap: the parent holds everything it and the successor saw. */
    method Reclaim(x: Id) returns (ok: bool)
      requires Valid() && x in log
      modifies this
      ensures Valid() && log == old(log)
      ensures ok <==> old(bitmaps)[x].successor.Some?
      ensures ok ==>
                && bitmaps.Keys == old(bitmaps).Keys - {old(bitmaps)[x].successor.value}
                && bitmaps[x] == old(bitmaps)[x].(bits := old(log)[x], successor := None)
                && (forall y :: y in bitmaps && y != x ==> bitmaps[y] == old(bitmaps)[y])
      ensures !ok ==> bitmaps == old(bitmaps)
    {
      assert HeldOk(bitmaps, log, since, x);
      if bitmaps[x].successor.None? {
        return false;
      }
      ReclaimedOk(bitmaps, log, since, x, bitmaps[x].successor.value);
      bitmaps := Reclaimed(bitmaps, x);
      return true;
    }

    /** bdrv_set_dirty: every held bitmap that is not disabled covers the write, itself or by
        its successor. */
    method SetDirty(sector: nat, n: nat)
      requires Valid()
      modifies this
      ensures Valid() && bitmaps.Keys == old(bitmaps).Keys
      ensures bitmaps == Dirtied(old(bitmaps), sector, n)
      ensures log == Logged(old(bitmaps), old(log), sector, n)
      ensures since == Logged(old(bitmaps), old(since), sector, n)
    {
      DirtiedOk(bitmaps, log, since, sector, n);
      var done := MarkAll(sector, n);
      log, since := Logged(bitmaps, log, sector, n), Logged(bitmaps, since, sector, n);
      bitmaps := done;
    }

    /** The loop of bdrv_set_dirty. */
    method MarkAll(sector: nat, n: nat) returns (done: Bitmaps)
      requires forall x :: x in bitmaps ==> bitmaps[x].gran > 0
      ensures done == Dirtied(bitmaps, sector, n)
    {
      var todo := bitmaps.Keys;
      done := map[];
      while todo != {}
        invariant todo <= bitmaps.Keys && done.Keys == bitmaps.Keys - todo
        invariant forall x :: x in done ==> done[x] == Marked(bitmaps[x], sector, n)
        decreases |todo|
      {
        var x :| x in todo;
        done := done[x := Marked(bitmaps[x], sector, n)];
        todo := todo - {x};
      }
    }

    /** bdrv_reset_dirty_bitmap; bdrv_clear_dirty_bitmap is the case of all its bits. */
    method Reset(x: Id, sector: nat, n: nat)
      requires Valid() && x in log && Enabled(bitmaps[x])
      modifies this
      ensures Valid()
      ensures bitmaps == old(bitmaps)[x := Without(old(bitmaps)[x], Granules(old(bitmaps)[x].gran, sector, n))]
      ensures log == old(log)[x := old(log)[x] - Granules(old(bitmaps)[x].gran, sector, n)]
    {
      var bits := Granules(bitmaps[x].gran, sector, n);
      ResetOk(bitmaps, log, since, x, bits, false);
      bitmaps, log := bitmaps[x := Without(bitmaps[x], bits)], log[x := log[x] - bits];
    }

    method Clear(x: Id)
      requires Valid() && x in log && Enabled(bitmaps[x])
      modifies this
      ensures Valid() && bitmaps == old(bitmaps)[x := old(bitmaps)[x].(bits := {})] && log == old(log)[x := {}]
    {
      assert HeldOk(bitmaps, log, since, x);
      ResetOk(bitmaps, log, since, x, bitmaps[x].bits, false);
      assert log[x] - bitmaps[x].bits == {};
      bitmaps, log := bitmaps[x := bitmaps[x].(bits := {})], log[x := {}];
    }

    /** bdrv_disable_dirty_bitmap and bdrv_enable_dirty_bitmap */
    method SetDisabled(x: Id, disabled: bool)
      requires Valid() && x in log && bitmaps[x].successor.None?
      modifies this
      ensures Valid() && bitmaps == old(bitmaps)[x := old(bitmaps)[x].(disabled := disabled)] && log == old(log)
    {
      ResetOk(bitmaps, log, since, x, {}, disabled);
      assert HeldOk(bitmaps, log, since, x) && log[x] - {} == log[x] && bitmaps[x].bits - {} == bitmaps[x].bits;
      assert log[x := log[x]] == log;
      bitmaps := bitmaps[x := bitmaps[x].(disabled := disabled)];
    }

    /** bdrv_release_dirty_bitmap of a bitmap that is not frozen. */
    method Release(x: Id)
      requires Valid() && x in log && bitmaps[x].successor.None?
      modifies this
      ensures Valid() && bitmaps == old(bitmaps) - {x} && log == old(log) - {x}
    {
      ReleasedOk(bitmaps, log, since, x);
      bitmaps, log := bitmaps - {x}, log - {x};
    }

    /** A bitmap that is not frozen shows exactly the writes noted for it; a frozen one does
        together with its successor. */
    lemma Covers(x: Id)
      requires Valid() && x in log
      ensures x in bitmaps
      ensures bitmaps[x].successor.None? ==> bitmaps[x].bits == log[x]
      ensures bitmaps[x].successor.Some? ==>
                && bitmaps[x].successor.value in bitmaps
                && bitmaps[x].bits + bitmaps[bitmaps[x].successor.value].bits == log[x]
    {
    }
  }
}
