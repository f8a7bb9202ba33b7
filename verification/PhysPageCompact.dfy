/** Path compaction of the physical page map (phys_page_compact), and why it may
    send an unmapped page to some other page's section but never loses a mapping. */
module PhysPageCompact {
  import opened Radix
  import opened PhysPageMap

  /** Some page of the slot goes to section `s`. */
  ghost predicate Reaches(nodes: seq<Node>, e: Entry, l: nat, lo: nat, s: nat) {
    exists q :: lo <= q < lo + Span(l) && Walk(nodes, e, l, q) == s
  }

  /** What compaction may do to page `q`: nothing, unless the page was unmapped; then
      the descent, whose skipped digits are not compared, may end in any mapped section. */
  ghost predicate CompactedAt(nodes0: seq<Node>, e0: Entry, nodes1: seq<Node>, e1: Entry, l: nat, lo: nat, q: nat) {
    || Walk(nodes1, e1, l, q) == Walk(nodes0, e0, l, q)
    || (&& Walk(nodes0, e0, l, q) == PHYS_SECTION_UNASSIGNED
        && Reaches(nodes0, e0, l, lo, Walk(nodes1, e1, l, q)))
  }

  ghost predicate Compacted(nodes0: seq<Node>, e0: Entry, nodes1: seq<Node>, e1: Entry, l: nat, lo: nat) {
    && (e1.ptr == PHYS_MAP_NODE_NIL <==> e0.ptr == PHYS_MAP_NODE_NIL)
    && forall q: nat :: CompactedAt(nodes0, e0, nodes1, e1, l, lo, q)
  }

  ghost predicate OnlyUsed(n: Node, v: nat) {
    && v < P_L2_SIZE && n[v].ptr != PHYS_MAP_NODE_NIL
    && forall j :: 0 <= j < P_L2_SIZE && j != v ==> n[j].ptr == PHYS_MAP_NODE_NIL
  }

  /** Exactly one slot of the node is in use. */
  ghost predicate Single(n: Node) {
    exists v :: OnlyUsed(n, v)
  }

  /** No descent from `e` meets a node with exactly one slot in use. */
  ghost predicate Tight(nodes: seq<Node>, e: Entry, l: nat)
    decreases l
  {
    Inner(nodes, e, l) ==>
      && !Single(nodes[e.ptr])
      && forall j :: 0 <= j < P_L2_SIZE ==> Tight(nodes, nodes[e.ptr][j], l - e.skip)
  }

  /** The entry leads to a node. */
  predicate Inner(nodes: seq<Node>, e: Entry, l: nat) {
    0 < e.skip <= l && e.ptr != PHYS_MAP_NODE_NIL && e.ptr < |nodes|
  }

  lemma {:induction false} TightFrame(nodes: seq<Node>, nodes': seq<Node>, homes: seq<Home>, e: Entry, l: nat, lo: nat)
    requires NodesOk(nodes, homes) && EntryOk(homes, e, l, lo) && |nodes'| == |nodes|
    requires forall n :: 0 <= n < |nodes| && Within(homes[n], l, lo) ==> nodes'[n] == nodes[n]
    requires Tight(nodes, e, l)
    ensures Tight(nodes', e, l)
    decreases l
  {
    if e.skip > 0 && e.ptr != PHYS_MAP_NODE_NIL {
      var h := homes[e.ptr];
      assert NodeOk(homes, nodes[e.ptr], h) && Inner(nodes, e, l);
      forall j | 0 <= j < P_L2_SIZE ensures Tight(nodes', nodes[e.ptr][j], h.level) {
        SlotInNode(h.base, h.level, j);
        TightFrame(nodes, nodes', homes, nodes[e.ptr][j], h.level, SlotLo(h.base, h.level, j));
      }
    }
  }

  /** The slots of node `p` below `i` are tight. */
  ghost predicate SlotsTight(nodes: seq<Node>, homes: seq<Home>, p: nat, i: nat)
    requires p < |nodes| == |homes|
  {
    forall j :: 0 <= j < i && j < P_L2_SIZE ==> Tight(nodes, nodes[p][j], homes[p].level)
  }

  lemma SlotTight(nodes: seq<Node>, nodes': seq<Node>, homes: seq<Home>, p: nat, i: nat, c: Entry)
    requires NodesOk(nodes, homes) && NodesOk(nodes', homes) && p < |nodes| && i < P_L2_SIZE
    requires SlotsTight(nodes, homes, p, i) && Tight(nodes', c, homes[p].level)
    requires EntryOk(homes, c, homes[p].level, SlotLo(homes[p].base, homes[p].level, i))
    requires Frame(nodes, homes, nodes', homes, homes[p].level, SlotLo(homes[p].base, homes[p].level, i))
    ensures SlotsTight(nodes'[p := nodes'[p][i := c]], homes, p, i + 1)
  {
    var h, nodes1 := homes[p], nodes'[p := nodes'[p][i := c]];
    NotWithinSlot(h.base, h.level, i);
    forall j | 0 <= j < i + 1 ensures Tight(nodes1, nodes1[p][j], h.level) {
      NotWithinSlot(h.base, h.level, j);
      if j == i {
        TightFrame(nodes', nodes1, homes, c, h.level, SlotLo(h.base, h.level, i));
      } else {
        assert NodeOk(homes, nodes[p], h);
        SlotMonotone(h.base, h.level, j, i);
        TightFrame(nodes, nodes1, homes, nodes[p][j], h.level, SlotLo(h.base, h.level, j));
      }
    }
  }

  /** Dividing by `s` after reducing modulo a multiple `m * s`. */
  lemma DivModDown(x: nat, s: nat, m: nat)
    requires s > 0 && m * s > 0
    ensures x / s == (x / (m * s)) * m + (x % (m * s)) / s
    ensures x % s == (x % (m * s)) % s
  {
    var a, r := x / (m * s), x % (m * s);
    MulAssoc(a, m, s);
    Distribute(a * m, r / s, s);
    assert x == (a * m + r / s) * s + r % s;
    DivUnique(x, s, a * m + r / s, r % s);
  }

  lemma DigitMod(q: nat, k: nat, l: nat)
    requires k < l
    ensures Digit(q % Span(l), k) == Digit(q, k)
  {
    var m := SpanFactor(k, l);
    DigitModAt(q, Span(k), Span(l), m);
  }

  lemma DigitModAt(q: nat, s: nat, t: nat, m: nat)
    requires s > 0 && t > 0 && t == (P_L2_SIZE * m) * s
    ensures ((q % t) / s) % P_L2_SIZE == (q / s) % P_L2_SIZE
  {
    DivModDown(q, s, P_L2_SIZE * m);
    DropMultiple(q / t, m, (q % t) / s);
  }

  lemma DropMultiple(a: nat, m: nat, d: nat)
    ensures (a * (P_L2_SIZE * m) + d) % P_L2_SIZE == d % P_L2_SIZE
  {
    var c := a * m;
    assert a * (P_L2_SIZE * m) == c * P_L2_SIZE;
    DivUnique(c * P_L2_SIZE + d, P_L2_SIZE, c + d / P_L2_SIZE, d % P_L2_SIZE);
  }

  /** `Span(l)` is a multiple of `P_L2_SIZE * Span(k)` when `k < l`. */
  lemma {:induction false} SpanFactor(k: nat, l: nat) returns (m: nat)
    requires k < l
    ensures Span(l) == (P_L2_SIZE * m) * Span(k)
  {
    SpanStep(l - 1);
    if k == l - 1 {
      m := 1;
    } else {
      var m' := SpanFactor(k, l - 1);
      m := P_L2_SIZE * m';
      MulAssoc(P_L2_SIZE, P_L2_SIZE * m', Span(k));
    }
  }

  /** A descent looks only at the digits below its level. */
  lemma {:induction false} WalkMod(nodes: seq<Node>, e: Entry, l: nat, q: nat, q': nat)
    requires q % Span(l) == q' % Span(l)
    ensures Walk(nodes, e, l, q) == Walk(nodes, e, l, q')
    decreases l
  {
    if 0 < e.skip <= l && e.ptr != PHYS_MAP_NODE_NIL && e.ptr < |nodes| {
      var k := l - e.skip;
      DigitMod(q, k, l);
      DigitMod(q', k, l);
      ModMod(q, q', k, l);
      WalkMod(nodes, nodes[e.ptr][Digit(q, k)], k, q, q');
    }
  }

  lemma ModMod(q: nat, q': nat, k: nat, l: nat)
    requires k < l && q % Span(l) == q' % Span(l)
    ensures q % Span(k) == q' % Span(k)
  {
    ModOfMod(q, k, l);
    ModOfMod(q', k, l);
  }

  lemma ModOfMod(q: nat, k: nat, l: nat)
    requires k < l
    ensures (q % Span(l)) % Span(k) == q % Span(k)
  {
    var m := SpanFactor(k, l);
    DivModDown(q, Span(k), P_L2_SIZE * m);
  }

  /** Any value a descent takes, it takes for some page of its own slot. */
  lemma WalkReaches(nodes: seq<Node>, e: Entry, l: nat, lo: nat, q: nat)
    requires lo % Span(l) == 0
    ensures Reaches(nodes, e, l, lo, Walk(nodes, e, l, q))
  {
    var s := Span(l);
    var q' := lo + q % s;
    DivUnique(q', s, lo / s, q % s);
    WalkMod(nodes, e, l, q', q);
  }

  /** Changes outside a slot do not matter to how it was compacted. */
  lemma CompactedFrame(nodes0: seq<Node>, e0: Entry, nodes1: seq<Node>, nodes2: seq<Node>, homes: seq<Home>,
                       e1: Entry, l: nat, lo: nat)
    requires NodesOk(nodes1, homes) && EntryOk(homes, e1, l, lo) && |nodes2| == |nodes1|
    requires forall n :: 0 <= n < |nodes1| && Within(homes[n], l, lo) ==> nodes2[n] == nodes1[n]
    requires Compacted(nodes0, e0, nodes1, e1, l, lo)
    ensures Compacted(nodes0, e0, nodes2, e1, l, lo)
  {
    forall q: nat ensures CompactedAt(nodes0, e0, nodes2, e1, l, lo, q) {
      assert CompactedAt(nodes0, e0, nodes1, e1, l, lo, q);
      WalkFrame(nodes1, nodes2, homes, e1, l, lo, q);
    }
  }

  /** Compaction relative to a state that agrees with `nodes0` below the slot. */
  lemma CompactedFrom(nodes0: seq<Node>, nodes1: seq<Node>, homes: seq<Home>, e0: Entry,
                      nodes2: seq<Node>, e2: Entry, l: nat, lo: nat)
    requires NodesOk(nodes0, homes) && EntryOk(homes, e0, l, lo) && |nodes1| == |nodes0|
    requires forall n :: 0 <= n < |nodes0| && Within(homes[n], l, lo) ==> nodes1[n] == nodes0[n]
    requires Compacted(nodes1, e0, nodes2, e2, l, lo)
    ensures Compacted(nodes0, e0, nodes2, e2, l, lo)
  {
    forall q: nat ensures CompactedAt(nodes0, e0, nodes2, e2, l, lo, q) {
      assert CompactedAt(nodes1, e0, nodes2, e2, l, lo, q);
      WalkFrame(nodes0, nodes1, homes, e0, l, lo, q);
      if Walk(nodes2, e2, l, q) != Walk(nodes1, e0, l, q) {
        var s := Walk(nodes2, e2, l, q);
        var q' :| lo <= q' < lo + Span(l) && Walk(nodes1, e0, l, q') == s;
        WalkFrame(nodes0, nodes1, homes, e0, l, lo, q');
      }
    }
  }

  /** A page of the slot of node `p` is a page of the entry that points to it. */
  lemma ReachesUp(nodes: seq<Node>, homes: seq<Home>, e: Entry, l: nat, lo: nat, j: nat, s: nat)
    requires NodesOk(nodes, homes) && EntryOk(homes, e, l, lo) && j < P_L2_SIZE
    requires e.skip > 0 && e.ptr != PHYS_MAP_NODE_NIL
    requires Reaches(nodes, nodes[e.ptr][j], l - e.skip, SlotLo(homes[e.ptr].base, l - e.skip, j), s)
    ensures Reaches(nodes, e, l, lo, s)
  {
    var k, base := l - e.skip, homes[e.ptr].base;
    var q :| SlotLo(base, k, j) <= q < SlotLo(base, k, j) + Span(k) && Walk(nodes, nodes[e.ptr][j], k, q) == s;
    assert NodeOk(homes, nodes[e.ptr], homes[e.ptr]);
    SlotInNode(base, k, j);
    DigitInSlot(q, k, base, j);
    assert Walk(nodes, e, l, q) == s;
  }

  /** Slots below `i` of node `p` have been compacted; the rest of the array is as it was. */
  ghost predicate SlotsCompacted(nodes0: seq<Node>, nodes: seq<Node>, homes: seq<Home>, p: nat, i: nat)
    requires p < |nodes0| == |nodes| == |homes|
  {
    var h := homes[p];
    && (forall j :: 0 <= j < i && j < P_L2_SIZE ==>
          Compacted(nodes0, nodes0[p][j], nodes, nodes[p][j], h.level, SlotLo(h.base, h.level, j)))
    && (forall j :: i <= j < P_L2_SIZE ==> nodes[p][j] == nodes0[p][j])
  }

  /** No node homed below slot `i` or a later one of node `p` has changed. */
  ghost predicate LaterUntouched(nodes0: seq<Node>, nodes: seq<Node>, homes: seq<Home>, p: nat, i: nat)
    requires p < |nodes0| == |nodes| == |homes|
  {
    forall n, j :: 0 <= n < |nodes| && i <= j < P_L2_SIZE
                   && Within(homes[n], homes[p].level, SlotLo(homes[p].base, homes[p].level, j))
                   ==> nodes[n] == nodes0[n]
  }

  /** With every slot compacted, the node's own entry is compacted too. */
  lemma NodeCompacted(nodes0: seq<Node>, nodes: seq<Node>, homes: seq<Home>, e: Entry, l: nat, lo: nat)
    requires NodesOk(nodes0, homes) && EntryOk(homes, e, l, lo) && |nodes| == |nodes0|
    requires e.skip > 0 && e.ptr != PHYS_MAP_NODE_NIL
    requires SlotsCompacted(nodes0, nodes, homes, e.ptr, P_L2_SIZE)
    ensures Compacted(nodes0, e, nodes, e, l, lo)
  {
    var p, h := e.ptr, homes[e.ptr];
    forall q: nat ensures CompactedAt(nodes0, e, nodes, e, l, lo, q) {
      var j := Digit(q, h.level);
      assert Compacted(nodes0, nodes0[p][j], nodes, nodes[p][j], h.level, SlotLo(h.base, h.level, j));
      assert CompactedAt(nodes0, nodes0[p][j], nodes, nodes[p][j], h.level, SlotLo(h.base, h.level, j), q);
      if Walk(nodes, e, l, q) != Walk(nodes0, e, l, q) {
        ReachesUp(nodes0, homes, e, l, lo, j, Walk(nodes, e, l, q));
      }
    }
  }

  /** The entry phys_page_compact stores when slot `v` is the node's only child `c`. */
  function Joined(e: Entry, c: Entry): Entry {
    if c.skip == 0 then Entry(0, c.ptr) else Entry(e.skip + c.skip, c.ptr)
  }

  lemma JoinedWalk(nodes: seq<Node>, e: Entry, c: Entry, l: nat, q: nat)
    requires e.skip <= l && c.skip <= l - e.skip
    ensures Walk(nodes, Joined(e, c), l, q) == Walk(nodes, c, l - e.skip, q)
  {
  }

  lemma JoinedOk(nodes: seq<Node>, homes: seq<Home>, e: Entry, l: nat, lo: nat, v: nat)
    requires NodesOk(nodes, homes) && EntryOk(homes, e, l, lo)
    requires e.skip > 0 && e.ptr != PHYS_MAP_NODE_NIL && v < P_L2_SIZE
    requires nodes[e.ptr][v].ptr != PHYS_MAP_NODE_NIL
    requires forall j :: 0 <= j < P_L2_SIZE && j != v ==> nodes[e.ptr][j].ptr == PHYS_MAP_NODE_NIL
    ensures EntryOk(homes, Joined(e, nodes[e.ptr][v]), l, lo)
  {
    var h, c := homes[e.ptr], nodes[e.ptr][v];
    assert NodeOk(homes, nodes[e.ptr], h);
    assert EntryOk(homes, c, h.level, SlotLo(h.base, h.level, v));
    var w := if v == 0 then 1 else 0;
    assert EntryOk(homes, nodes[e.ptr][w], h.level, SlotLo(h.base, h.level, w));
    SlotInNode(h.base, h.level, v);
  }

  /** Skipping a node whose only child is slot `v`. */
  lemma NodeSkipped(nodes0: seq<Node>, nodes: seq<Node>, homes: seq<Home>, e: Entry, l: nat, lo: nat, v: nat)
    requires NodesOk(nodes0, homes) && NodesOk(nodes, homes) && EntryOk(homes, e, l, lo)
    requires e.skip > 0 && e.ptr != PHYS_MAP_NODE_NIL && v < P_L2_SIZE
    requires SlotsCompacted(nodes0, nodes, homes, e.ptr, P_L2_SIZE)
    requires nodes0[e.ptr][v].ptr != PHYS_MAP_NODE_NIL
    requires forall j :: 0 <= j < P_L2_SIZE && j != v ==> nodes0[e.ptr][j].ptr == PHYS_MAP_NODE_NIL
    ensures Compacted(nodes0, e, nodes, Joined(e, nodes[e.ptr][v]), l, lo)
  {
    var p, h, c := e.ptr, homes[e.ptr], nodes[e.ptr][v];
    var e', slo := Joined(e, c), SlotLo(h.base, h.level, v);
    assert NodeOk(homes, nodes[p], h);
    assert EntryOk(homes, c, h.level, slo);
    assert Compacted(nodes0, nodes0[p][v], nodes, c, h.level, slo);
    forall q: nat ensures CompactedAt(nodes0, e, nodes, e', l, lo, q) {
      JoinedWalk(nodes, e, c, l, q);
      assert CompactedAt(nodes0, nodes0[p][v], nodes, c, h.level, slo, q);
      SkippedPage(nodes0, homes, e, l, lo, v, q, Walk(nodes, c, h.level, q));
    }
  }

  lemma SkippedPage(nodes0: seq<Node>, homes: seq<Home>, e: Entry, l: nat, lo: nat, v: nat, q: nat, s: nat)
    requires NodesOk(nodes0, homes) && EntryOk(homes, e, l, lo)
    requires e.skip > 0 && e.ptr != PHYS_MAP_NODE_NIL && v < P_L2_SIZE
    requires forall j :: 0 <= j < P_L2_SIZE && j != v ==> nodes0[e.ptr][j].ptr == PHYS_MAP_NODE_NIL
    requires var k, slo := l - e.skip, SlotLo(homes[e.ptr].base, l - e.skip, v);
             || s == Walk(nodes0, nodes0[e.ptr][v], k, q)
             || (&& Walk(nodes0, nodes0[e.ptr][v], k, q) == PHYS_SECTION_UNASSIGNED
                 && Reaches(nodes0, nodes0[e.ptr][v], k, slo, s))
    ensures s == Walk(nodes0, e, l, q)
            || (Walk(nodes0, e, l, q) == PHYS_SECTION_UNASSIGNED && Reaches(nodes0, e, l, lo, s))
  {
    var k, base := l - e.skip, homes[e.ptr].base;
    assert NodeOk(homes, nodes0[e.ptr], homes[e.ptr]);
    SlotAligned(base, k, v);
    WalkReaches(nodes0, nodes0[e.ptr][v], k, SlotLo(base, k, v), q);
    ReachesUp(nodes0, homes, e, l, lo, v, s);
    assert Walk(nodes0, e, l, q) == Walk(nodes0, nodes0[e.ptr][Digit(q, k)], k, q);
  }

  /** Compacting slot `i` keeps the loop's invariants. */
  lemma SlotCompacted(nodes0: seq<Node>, nodes: seq<Node>, nodes': seq<Node>, homes: seq<Home>, p: nat, i: nat,
                      c: Entry)
    requires NodesOk(nodes0, homes) && NodesOk(nodes, homes) && NodesOk(nodes', homes)
    requires p < |nodes| && i < P_L2_SIZE
    requires SlotsCompacted(nodes0, nodes, homes, p, i) && LaterUntouched(nodes0, nodes, homes, p, i)
    requires var h := homes[p];
             && EntryOk(homes, c, h.level, SlotLo(h.base, h.level, i))
             && Frame(nodes, homes, nodes', homes, h.level, SlotLo(h.base, h.level, i))
             && Compacted(nodes, nodes[p][i], nodes', c, h.level, SlotLo(h.base, h.level, i))
    ensures NodesOk(nodes'[p := nodes'[p][i := c]], homes)
    ensures SlotsCompacted(nodes0, nodes'[p := nodes'[p][i := c]], homes, p, i + 1)
    ensures LaterUntouched(nodes0, nodes'[p := nodes'[p][i := c]], homes, p, i + 1)
  {
    var h := homes[p];
    var l, slo, nodes1 := h.level, SlotLo(h.base, h.level, i), nodes'[p := nodes'[p][i := c]];
    SlotUpdate(nodes, homes, nodes', homes, p, l, h.base, i, c);
    NotWithinSlot(h.base, l, i);
    assert nodes'[p] == nodes[p];
    forall j | 0 <= j < i + 1 ensures Compacted(nodes0, nodes0[p][j], nodes1, nodes1[p][j], l, SlotLo(h.base, l, j)) {
      if j == i {
        ThisSlot(nodes0, nodes, nodes', homes, p, i, c);
      } else {
        EarlierSlot(nodes0, nodes, nodes', homes, p, i, j, c);
      }
    }
    LaterSlots(nodes0, nodes, nodes', homes, p, i, c);
  }

  lemma ThisSlot(nodes0: seq<Node>, nodes: seq<Node>, nodes': seq<Node>, homes: seq<Home>, p: nat, i: nat, c: Entry)
    requires NodesOk(nodes0, homes) && NodesOk(nodes', homes) && |nodes| == |nodes0|
    requires p < |nodes| && i < P_L2_SIZE
    requires nodes[p][i] == nodes0[p][i] && LaterUntouched(nodes0, nodes, homes, p, i)
    requires EntryOk(homes, c, homes[p].level, SlotLo(homes[p].base, homes[p].level, i))
    requires Compacted(nodes, nodes[p][i], nodes', c, homes[p].level, SlotLo(homes[p].base, homes[p].level, i))
    ensures Compacted(nodes0, nodes0[p][i], nodes'[p := nodes'[p][i := c]], c,
                      homes[p].level, SlotLo(homes[p].base, homes[p].level, i))
  {
    var h := homes[p];
    var slo := SlotLo(h.base, h.level, i);
    assert NodeOk(homes, nodes0[p], h);
    CompactedFrom(nodes0, nodes, homes, nodes0[p][i], nodes', c, h.level, slo);
    NotWithinSlot(h.base, h.level, i);
    CompactedFrame(nodes0, nodes0[p][i], nodes', nodes'[p := nodes'[p][i := c]], homes, c, h.level, slo);
  }

  lemma EarlierSlot(nodes0: seq<Node>, nodes: seq<Node>, nodes': seq<Node>, homes: seq<Home>,
                    p: nat, i: nat, j: nat, c: Entry)
    requires NodesOk(nodes, homes) && |nodes0| == |nodes| == |nodes'|
    requires p < |nodes| && j < i < P_L2_SIZE
    requires Frame(nodes, homes, nodes', homes, homes[p].level, SlotLo(homes[p].base, homes[p].level, i))
    requires Compacted(nodes0, nodes0[p][j], nodes, nodes[p][j],
                       homes[p].level, SlotLo(homes[p].base, homes[p].level, j))
    ensures Compacted(nodes0, nodes0[p][j], nodes'[p := nodes'[p][i := c]], nodes[p][j],
                      homes[p].level, SlotLo(homes[p].base, homes[p].level, j))
  {
    var h := homes[p];
    var nodes1 := nodes'[p := nodes'[p][i := c]];
    assert NodeOk(homes, nodes[p], h);
    NotWithinSlot(h.base, h.level, j);
    SlotMonotone(h.base, h.level, j, i);
    CompactedFrame(nodes0, nodes0[p][j], nodes, nodes1, homes, nodes[p][j], h.level, SlotLo(h.base, h.level, j));
  }

  lemma LaterSlots(nodes0: seq<Node>, nodes: seq<Node>, nodes': seq<Node>, homes: seq<Home>, p: nat, i: nat, c: Entry)
    requires |nodes0| == |nodes| == |nodes'| == |homes| && p < |nodes| && i < P_L2_SIZE
    requires LaterUntouched(nodes0, nodes, homes, p, i)
    requires Frame(nodes, homes, nodes', homes, homes[p].level, SlotLo(homes[p].base, homes[p].level, i))
    ensures LaterUntouched(nodes0, nodes'[p := nodes'[p][i := c]], homes, p, i + 1)
  {
    var h, nodes1 := homes[p], nodes'[p := nodes'[p][i := c]];
    forall n, j | 0 <= n < |nodes1| && i + 1 <= j < P_L2_SIZE && Within(homes[n], h.level, SlotLo(h.base, h.level, j))
      ensures nodes1[n] == nodes0[n]
    {
      NotWithinSlot(h.base, h.level, j);
      SlotMonotone(h.base, h.level, i, j);
    }
  }

  /** phys_page_compact, on the entry `lp` and the node array it points into. `lo` is
      the first page below `lp`, `l` its level. */
  method Compact(nodes: seq<Node>, lp: Entry, l: nat, ghost homes: seq<Home>, ghost lo: nat)
    returns (nodes': seq<Node>, lp': Entry)
    requires NodesOk(nodes, homes) && EntryOk(homes, lp, l, lo) && lp.skip > 0
    ensures NodesOk(nodes', homes) && EntryOk(homes, lp', l, lo)
    ensures Frame(nodes, homes, nodes', homes, l, lo)
    ensures Compacted(nodes, lp, nodes', lp', l, lo)
    ensures l < 8 ==> Tight(nodes', lp', l)
    decreases l, 0
  {
    nodes', lp' := nodes, lp;
    if lp.ptr == PHYS_MAP_NODE_NIL {
      return;
    }
    var p := lp.ptr;
    assert NodeOk(homes, nodes[p], homes[p]);
    var valid, validPtr;
    nodes', valid, validPtr := CompactSlots(nodes, p, l - lp.skip, homes);
    FrameUp(nodes, homes, nodes', lp, l, lo);
    NilSame(nodes, nodes', homes, p);
    CountedSame(nodes, nodes', p, valid, validPtr);
    if valid != 1 {
      NodeCompacted(nodes, nodes', homes, lp, l, lo);
      NodeTight(nodes', homes, lp, l, valid, validPtr);
      return;
    }
    ChildFits(nodes', homes, lp, l, validPtr);
    if lp.skip + nodes'[p][validPtr].skip >= 8 {
      NodeCompacted(nodes, nodes', homes, lp, l, lo);
      return;
    }
    NodeSkipped(nodes, nodes', homes, lp, l, lo, validPtr);
    JoinedOk(nodes', homes, lp, l, lo, validPtr);
    JoinedTight(nodes', lp, nodes'[p][validPtr], l);
    if nodes'[p][validPtr].skip == 0 {
      lp' := Entry(0, nodes'[p][validPtr].ptr);
    } else {
      lp' := Entry(lp.skip + nodes'[p][validPtr].skip, nodes'[p][validPtr].ptr);
    }
  }

  lemma CountedSame(nodes0: seq<Node>, nodes: seq<Node>, p: nat, valid: nat, validPtr: nat)
    requires p < |nodes0| == |nodes| && Counted(nodes0, p, valid, validPtr, P_L2_SIZE)
    requires forall j :: 0 <= j < P_L2_SIZE ==>
               (nodes[p][j].ptr == PHYS_MAP_NODE_NIL <==> nodes0[p][j].ptr == PHYS_MAP_NODE_NIL)
    ensures Counted(nodes, p, valid, validPtr, P_L2_SIZE)
  {
  }

  /** A node that does not have exactly one slot in use stays. */
  lemma NodeTight(nodes: seq<Node>, homes: seq<Home>, e: Entry, l: nat, valid: nat, validPtr: nat)
    requires |nodes| == |homes| && 0 < e.skip <= l && e.ptr < |nodes| && homes[e.ptr].level == l - e.skip
    requires SlotsTight(nodes, homes, e.ptr, P_L2_SIZE)
    requires Counted(nodes, e.ptr, valid, validPtr, P_L2_SIZE) && valid != 1
    ensures Tight(nodes, e, l)
  {
    NotSingle(nodes, e.ptr, valid, validPtr);
    forall j | 0 <= j < P_L2_SIZE ensures Tight(nodes, nodes[e.ptr][j], l - e.skip) {
    }
  }

  lemma NotSingle(nodes: seq<Node>, p: nat, valid: nat, validPtr: nat)
    requires p < |nodes| && Counted(nodes, p, valid, validPtr, P_L2_SIZE) && valid != 1
    ensures !Single(nodes[p])
  {
    if valid > 1 {
      var k :| 0 <= k < validPtr && nodes[p][k].ptr != PHYS_MAP_NODE_NIL;
      forall v: nat ensures !OnlyUsed(nodes[p], v) {
        assert v == k ==> nodes[p][validPtr].ptr != PHYS_MAP_NODE_NIL;
      }
    }
  }

  lemma JoinedTight(nodes: seq<Node>, e: Entry, c: Entry, l: nat)
    requires 0 < e.skip <= l && c.skip <= l - e.skip && Tight(nodes, c, l - e.skip)
    ensures Tight(nodes, Joined(e, c), l)
  {
  }

  lemma ChildFits(nodes: seq<Node>, homes: seq<Home>, e: Entry, l: nat, v: nat)
    requires NodesOk(nodes, homes) && v < P_L2_SIZE && 0 < e.skip <= l
    requires e.ptr < |nodes| && homes[e.ptr].level == l - e.skip
    ensures nodes[e.ptr][v].skip <= l - e.skip
  {
    assert NodeOk(homes, nodes[e.ptr], homes[e.ptr]);
    assert EntryOk(homes, nodes[e.ptr][v], l - e.skip, SlotLo(homes[e.ptr].base, l - e.skip, v));
  }

  /** The entries of node `p` below slot `i` that are in use: none, one, or more. */
  ghost predicate Counted(nodes0: seq<Node>, p: nat, valid: nat, validPtr: nat, i: nat)
    requires p < |nodes0|
  {
    && (valid > 0 ==> validPtr < i && validPtr < P_L2_SIZE && nodes0[p][validPtr].ptr != PHYS_MAP_NODE_NIL)
    && (valid == 0 ==> forall j :: 0 <= j < i && j < P_L2_SIZE ==> nodes0[p][j].ptr == PHYS_MAP_NODE_NIL)
    && (valid > 1 ==> exists j :: 0 <= j < validPtr && nodes0[p][j].ptr != PHYS_MAP_NODE_NIL)
    && (valid == 1 ==>
          forall j :: 0 <= j < i && j < P_L2_SIZE && j != validPtr ==> nodes0[p][j].ptr == PHYS_MAP_NODE_NIL)
  }

  /** The loop's invariant on the node array. */
  ghost predicate CompactInv(nodes0: seq<Node>, nodes: seq<Node>, homes: seq<Home>, p: nat, i: nat)
    requires p < |homes|
  {
    && NodesOk(nodes, homes)
    && Frame(nodes0, homes, nodes, homes, homes[p].level + 1, homes[p].base)
    && SlotsCompacted(nodes0, nodes, homes, p, i)
    && LaterUntouched(nodes0, nodes, homes, p, i)
    && SlotsTight(nodes, homes, p, i)
  }

  /** The loop of phys_page_compact over the slots of node `p`. */
  method CompactSlots(nodes: seq<Node>, p: nat, level: nat, ghost homes: seq<Home>)
    returns (nodes': seq<Node>, valid: nat, validPtr: nat)
    requires NodesOk(nodes, homes) && p < |nodes| && homes[p].level == level
    ensures NodesOk(nodes', homes)
    ensures Frame(nodes, homes, nodes', homes, level + 1, homes[p].base)
    ensures SlotsCompacted(nodes, nodes', homes, p, P_L2_SIZE) && SlotsTight(nodes', homes, p, P_L2_SIZE)
    ensures Counted(nodes, p, valid, validPtr, P_L2_SIZE)
    decreases level, 2
  {
    nodes', valid, validPtr := nodes, 0, P_L2_SIZE;
    var i := 0;
    while i < P_L2_SIZE
      invariant i <= P_L2_SIZE
      invariant CompactInv(nodes, nodes', homes, p, i)
      invariant Counted(nodes, p, valid, validPtr, i)
    {
      if nodes'[p][i].ptr != PHYS_MAP_NODE_NIL {
        assert valid > 0 ==> 0 <= validPtr < i && nodes[p][validPtr].ptr != PHYS_MAP_NODE_NIL;
        validPtr := i;
        valid := valid + 1;
      }
      nodes' := CompactSlot(nodes', p, i, level, nodes, homes);
      i := i + 1;
    }
  }

  /** One turn of that loop: slot `i` is compacted if it points to a node. */
  method CompactSlot(nodes: seq<Node>, p: nat, i: nat, level: nat, ghost nodes0: seq<Node>, ghost homes: seq<Home>)
    returns (nodes': seq<Node>)
    requires NodesOk(nodes0, homes)
    requires p < |homes| && homes[p].level == level && i < P_L2_SIZE
    requires CompactInv(nodes0, nodes, homes, p, i)
    ensures CompactInv(nodes0, nodes', homes, p, i + 1)
    decreases level, 1
  {
    assert NodeOk(homes, nodes[p], homes[p]);
    ghost var slo := SlotLo(homes[p].base, level, i);
    nodes' := nodes;
    var c := nodes[p][i];
    if c.ptr != PHYS_MAP_NODE_NIL && c.skip > 0 {
      nodes', c := Compact(nodes, c, level, homes, slo);
    }
    SlotCompacted(nodes0, nodes, nodes', homes, p, i, c);
    SlotTight(nodes, nodes', homes, p, i, c);
    FrameStep(nodes0, homes, nodes, homes, nodes', homes, c, p, level, homes[p].base, i);
    nodes' := nodes'[p := nodes'[p][i := c]];
  }

  lemma FrameUp(nodes: seq<Node>, homes: seq<Home>, nodes': seq<Node>, e: Entry, l: nat, lo: nat)
    requires EntryOk(homes, e, l, lo) && e.skip > 0 && e.ptr != PHYS_MAP_NODE_NIL
    requires Frame(nodes, homes, nodes', homes, l - e.skip + 1, homes[e.ptr].base)
    ensures Frame(nodes, homes, nodes', homes, l, lo)
  {
  }

  lemma NilSame(nodes0: seq<Node>, nodes: seq<Node>, homes: seq<Home>, p: nat)
    requires p < |nodes0| == |nodes| == |homes|
    requires SlotsCompacted(nodes0, nodes, homes, p, P_L2_SIZE)
    ensures forall j :: 0 <= j < P_L2_SIZE ==>
              (nodes[p][j].ptr == PHYS_MAP_NODE_NIL <==> nodes0[p][j].ptr == PHYS_MAP_NODE_NIL)
  {
  }
}
