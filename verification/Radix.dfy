/** Positional arithmetic of the physical page map: page numbers written in
    base P_L2_SIZE, one digit per level of the tree. */
module Radix {

  const P_L2_SIZE: nat := 512
  const P_L2_LEVELS: nat := 6

  /** Number of pages below one slot of a node at level `l`. */
  function Span(l: nat): (s: nat)
    ensures s > 0
  {
    if l == 0 then 1 else P_L2_SIZE * Span(l - 1)
  }

  /** The slot of page `q` in a level-`l` node: nine bits of the page number. */
  function Digit(q: nat, l: nat): (d: nat)
    ensures d < P_L2_SIZE
  {
    (q / Span(l)) % P_L2_SIZE
  }

  /** First page below slot `j` of a level-`l` node whose first page is `lo`.
      Written as a sum so that the solver meets no products. */
  function SlotLo(lo: nat, l: nat, j: nat): nat {
    if j == 0 then lo else SlotLo(lo, l, j - 1) + Span(l)
  }

  lemma {:induction false} SlotClosed(lo: nat, l: nat, j: nat)
    ensures SlotLo(lo, l, j) == lo + j * Span(l)
  {
    if j > 0 {
      SlotClosed(lo, l, j - 1);
    }
  }

  lemma SlotSucc(lo: nat, l: nat, j: nat)
    ensures SlotLo(lo, l, j + 1) == SlotLo(lo, l, j) + Span(l)
  {
  }

  lemma {:induction false} SlotMonotone(lo: nat, l: nat, i: nat, j: nat)
    requires i < j
    ensures SlotLo(lo, l, i) + Span(l) <= SlotLo(lo, l, j)
  {
    if i < j - 1 {
      SlotMonotone(lo, l, i, j - 1);
    }
  }

  lemma SlotZero(lo: nat, l: nat)
    ensures SlotLo(lo, l, 0) == lo && SlotLo(lo, l, P_L2_SIZE) == lo + Span(l + 1)
  {
    SlotClosed(lo, l, P_L2_SIZE);
  }

  lemma SlotInNode(lo: nat, l: nat, j: nat)
    requires j < P_L2_SIZE
    ensures lo <= SlotLo(lo, l, j) && SlotLo(lo, l, j) + Span(l) <= lo + Span(l + 1)
  {
    SlotZero(lo, l);
    SlotMonotone(lo, l, j, P_L2_SIZE);
    if j > 0 {
      SlotMonotone(lo, l, 0, j);
    }
  }

  lemma DivUnique(x: nat, s: nat, a: nat, r: nat)
    requires s > 0 && r < s && x == a * s + r
    ensures x / s == a
  {
    var d := x / s;
    assert x == d * s + x % s;
    assert d + 1 <= a ==> (d + 1) * s <= a * s;
    assert a + 1 <= d ==> (a + 1) * s <= d * s;
  }

  lemma SpanStep(l: nat)
    ensures Span(l + 1) == P_L2_SIZE * Span(l)
  {
  }

  /** An aligned slot start is a multiple of the slot size. */
  lemma SlotAligned(lo: nat, l: nat, j: nat)
    requires lo % Span(l + 1) == 0
    ensures SlotLo(lo, l, j) % Span(l) == 0
  {
    SlotClosed(lo, l, j);
    var k := AlignedSlots(lo, l);
    Distribute(k * P_L2_SIZE, j, Span(l));
    MultipleMod(k * P_L2_SIZE + j, Span(l));
  }

  lemma MulAssoc(a: nat, b: nat, c: nat)
    ensures a * (b * c) == (a * b) * c
  {
  }

  lemma MultipleMod(a: nat, s: nat)
    requires s > 0
    ensures (a * s) % s == 0
  {
    DivUnique(a * s, s, a, 0);
    var x := a * s;
    assert x == (x / s) * s + x % s;
  }

  lemma ModOfSum(k: nat, j: nat)
    requires j < P_L2_SIZE
    ensures (k * P_L2_SIZE + j) % P_L2_SIZE == j
  {
  }

  /** An aligned address is a whole number of slots. */
  lemma AlignedSlots(lo: nat, l: nat) returns (k: nat)
    requires lo % Span(l + 1) == 0
    ensures lo == (k * P_L2_SIZE) * Span(l)
  {
    k := lo / Span(l + 1);
    SpanStep(l);
    MulAssoc(k, P_L2_SIZE, Span(l));
  }

  /** A page below slot `j` of an aligned node selects digit `j`. */
  lemma DigitInSlot(q: nat, l: nat, lo: nat, j: nat)
    requires lo % Span(l + 1) == 0 && j < P_L2_SIZE
    requires SlotLo(lo, l, j) <= q < SlotLo(lo, l, j) + Span(l)
    ensures Digit(q, l) == j
  {
    SlotClosed(lo, l, j);
    var k := AlignedSlots(lo, l);
    Distribute(k * P_L2_SIZE, j, Span(l));
    DivUnique(q, Span(l), k * P_L2_SIZE + j, q - (k * P_L2_SIZE + j) * Span(l));
    ModOfSum(k, j);
  }

  lemma Distribute(a: nat, b: nat, c: nat)
    ensures (a + b) * c == a * c + b * c
  {
  }

  /** A page of an aligned node lies below the slot its digit selects. */
  lemma SlotOfDigit(q: nat, l: nat, lo: nat)
    requires lo % Span(l + 1) == 0
    requires lo <= q < lo + Span(l + 1)
    ensures SlotLo(lo, l, Digit(q, l)) <= q < SlotLo(lo, l, Digit(q, l)) + Span(l)
  {
    var s := Span(l);
    var j := (q - lo) / s;
    SpanStep(l);
    assert q - lo == j * s + (q - lo) % s;
    assert j >= P_L2_SIZE ==> j * s >= P_L2_SIZE * s;
    SlotClosed(lo, l, j);
    DigitInSlot(q, l, lo, j);
  }
}
