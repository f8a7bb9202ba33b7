/** The physical page map of exec.c: a radix tree of nodes held in one growing
    array, with large leaves and in-place updates. */
module PhysPageMap {
  import opened Radix

  const PHYS_MAP_NODE_NIL: nat := 0x3ffffff
  const PHYS_SECTION_UNASSIGNED: nat := 0

  /** `skip` levels down to node `ptr`; a leaf (section number) when `skip` is 0. */
  datatype Entry = Entry(skip: nat, ptr: nat)

  type Node = s: seq<Entry> | |s| == P_L2_SIZE witness seq(P_L2_SIZE, _ => Entry(0, 0))

  /** What phys_map_node_alloc fills a new node with. */
  function FreshNode(leaf: bool): Node {
    seq(P_L2_SIZE, _ => if leaf then Entry(0, PHYS_SECTION_UNASSIGNED) else Entry(1, PHYS_MAP_NODE_NIL))
  }

  /** The section number that the descent from entry `e`, `l` levels above the
      pages, selects for page `q`; a missing node selects PHYS_SECTION_UNASSIGNED. */
  function Walk(nodes: seq<Node>, e: Entry, l: nat, q: nat): nat
    decreases l
  {
    if e.skip == 0 || e.skip > l then e.ptr
    else if e.ptr == PHYS_MAP_NODE_NIL || e.ptr >= |nodes| then PHYS_SECTION_UNASSIGNED
    else Walk(nodes, nodes[e.ptr][Digit(q, l - e.skip)], l - e.skip, q)
  }

  /** The place a node was allocated for: its level and its first page. */
  datatype Home = Home(level: nat, base: nat)

  ghost predicate Within(h: Home, l: nat, lo: nat) {
    lo <= h.base && h.base + Span(h.level + 1) <= lo + Span(l)
  }

  /** `e` may sit in a slot that spans the pages from `lo` to `lo + Span(l)`. */
  ghost predicate EntryOk(homes: seq<Home>, e: Entry, l: nat, lo: nat) {
    && e.skip <= l
    && (e.skip == 0 ==> e.ptr < PHYS_MAP_NODE_NIL)
    && (e.skip == 0 && l > 0 ==> e.ptr != PHYS_SECTION_UNASSIGNED)
    && (e.skip > 0 && e.ptr != PHYS_MAP_NODE_NIL ==>
          e.ptr < |homes| && homes[e.ptr].level == l - e.skip && Within(homes[e.ptr], l, lo))
  }

  ghost predicate NodeOk(homes: seq<Home>, n: Node, h: Home) {
    && h.level < P_L2_LEVELS
    && h.base % Span(h.level + 1) == 0
    && forall j :: 0 <= j < P_L2_SIZE ==> EntryOk(homes, n[j], h.level, SlotLo(h.base, h.level, j))
  }

  ghost predicate NodesOk(nodes: seq<Node>, homes: seq<Home>) {
    && |nodes| == |homes|
    && forall n :: 0 <= n < |nodes| ==> NodeOk(homes, nodes[n], homes[n])
  }

  /** No entry skips more than one level: the tree before compaction. */
  ghost predicate Plain(nodes: seq<Node>) {
    forall n, j :: 0 <= n < |nodes| && 0 <= j < P_L2_SIZE ==> nodes[n][j].skip <= 1
  }

  /** Storing a leaf over the pages [a, b) never has to split a leaf of this subtree. */
  ghost predicate Settable(nodes: seq<Node>, e: Entry, l: nat, lo: nat, a: nat, b: nat)
    decreases l
  {
    || b <= lo || lo + Span(l) <= a
    || (a <= lo && lo + Span(l) <= b)
    || (&& l > 0 && e.skip == 1
        && (e.ptr == PHYS_MAP_NODE_NIL ||
            (e.ptr < |nodes| &&
             forall j :: 0 <= j < P_L2_SIZE ==>
               Settable(nodes, nodes[e.ptr][j], l - 1, SlotLo(lo, l - 1, j), a, b))))
  }

  /** Nodes homed outside a slot do not matter to descents from that slot. */
  lemma {:induction false} WalkFrame(nodes: seq<Node>, nodes': seq<Node>, homes: seq<Home>,
                                     e: Entry, l: nat, lo: nat, q: nat)
    requires NodesOk(nodes, homes) && EntryOk(homes, e, l, lo)
    requires |nodes| <= |nodes'|
    requires forall n :: 0 <= n < |nodes| && Within(homes[n], l, lo) ==> nodes'[n] == nodes[n]
    ensures Walk(nodes', e, l, q) == Walk(nodes, e, l, q)
    decreases l
  {
    if e.skip > 0 && e.ptr != PHYS_MAP_NODE_NIL {
      var h := homes[e.ptr];
      var j := Digit(q, h.level);
      assert NodeOk(homes, nodes[e.ptr], h);
      SlotInNode(h.base, h.level, j);
      WalkFrame(nodes, nodes', homes, nodes[e.ptr][j], h.level, SlotLo(h.base, h.level, j), q);
    }
  }

  lemma {:induction false} SettableFrame(nodes: seq<Node>, nodes': seq<Node>, homes: seq<Home>,
                                         e: Entry, l: nat, lo: nat, a: nat, b: nat)
    requires NodesOk(nodes, homes) && EntryOk(homes, e, l, lo)
    requires |nodes| <= |nodes'|
    requires lo % Span(l) == 0
    requires forall n :: 0 <= n < |nodes| && Within(homes[n], l, lo) ==> nodes'[n] == nodes[n]
    requires Settable(nodes, e, l, lo, a, b)
    ensures Settable(nodes', e, l, lo, a, b)
    decreases l
  {
    if e.skip == 1 && l > 0 && e.ptr != PHYS_MAP_NODE_NIL
      && !(b <= lo || lo + Span(l) <= a || (a <= lo && lo + Span(l) <= b)) {
      assert NodeOk(homes, nodes[e.ptr], homes[e.ptr]);
      assert homes[e.ptr].base == lo;
      forall j | 0 <= j < P_L2_SIZE
        ensures Settable(nodes', nodes'[e.ptr][j], l - 1, SlotLo(lo, l - 1, j), a, b)
      {
        SlotInNode(lo, l - 1, j);
        SlotAligned(lo, l - 1, j);
        SettableFrame(nodes, nodes', homes, nodes[e.ptr][j], l - 1, SlotLo(lo, l - 1, j), a, b);
      }
    }
  }

  /** The descent from a level-`l` node. */
  function WalkNode(nodes: seq<Node>, p: nat, l: nat, q: nat): nat
    requires p < |nodes|
  {
    Walk(nodes, nodes[p][Digit(q, l)], l, q)
  }

  ghost predicate InSlot(q: nat, lo: nat, l: nat, j: nat) {
    SlotLo(lo, l, j) <= q < SlotLo(lo, l, j) + Span(l)
  }

  /** Replacing slot `i` of node `p`, together with nodes homed below that slot,
      redirects the pages below the slot and no others. */
  lemma SlotUpdate(nodes: seq<Node>, homes: seq<Home>, nodes': seq<Node>, homes': seq<Home>,
                   p: nat, l: nat, lo: nat, i: nat, c: Entry)
    requires NodesOk(nodes, homes) && NodesOk(nodes', homes')
    requires homes <= homes'
    requires p < |nodes| && homes[p] == Home(l, lo) && i < P_L2_SIZE
    requires forall n :: 0 <= n < |nodes| && !Within(homes[n], l, SlotLo(lo, l, i)) ==> nodes'[n] == nodes[n]
    requires EntryOk(homes', c, l, SlotLo(lo, l, i))
    ensures NodesOk(nodes'[p := nodes'[p][i := c]], homes')
    ensures forall q :: lo <= q < lo + Span(l + 1) ==>
              WalkNode(nodes'[p := nodes'[p][i := c]], p, l, q)
              == if InSlot(q, lo, l, i) then Walk(nodes', c, l, q) else WalkNode(nodes, p, l, q)
  {
    var nodes1 := nodes'[p := nodes'[p][i := c]];
    assert NodeOk(homes, nodes[p], homes[p]);
    NotWithinSlot(lo, l, i);
    assert nodes'[p] == nodes[p];
    forall n | 0 <= n < |nodes1| ensures NodeOk(homes', nodes1[n], homes'[n]) {
      assert NodeOk(homes', nodes'[n], homes'[n]);
    }
    forall q | lo <= q < lo + Span(l + 1)
      ensures WalkNode(nodes1, p, l, q)
              == if InSlot(q, lo, l, i) then Walk(nodes', c, l, q) else WalkNode(nodes, p, l, q)
    {
      SlotOfDigit(q, l, lo);
      var j := Digit(q, l);
      if InSlot(q, lo, l, i) {
        DigitInSlot(q, l, lo, i);
        UpdateAbove(nodes', nodes1, homes', c, l, SlotLo(lo, l, i), p, lo, q);
      } else {
        assert j != i;
        SiblingUntouched(nodes, nodes', nodes1, homes, p, l, lo, i, j, q);
      }
    }
  }

  lemma NotWithinSlot(lo: nat, l: nat, i: nat)
    ensures !Within(Home(l, lo), l, SlotLo(lo, l, i))
  {
  }

  lemma UpdateAbove(nodes: seq<Node>, nodes1: seq<Node>, homes: seq<Home>, c: Entry,
                    l: nat, clo: nat, p: nat, lo: nat, q: nat)
    requires NodesOk(nodes, homes) && EntryOk(homes, c, l, clo)
    requires p < |nodes| && homes[p] == Home(l, lo)
    requires |nodes1| == |nodes| && forall n :: 0 <= n < |nodes| && n != p ==> nodes1[n] == nodes[n]
    ensures Walk(nodes1, c, l, q) == Walk(nodes, c, l, q)
  {
    SpanStep(l);
    WalkFrame(nodes, nodes1, homes, c, l, clo, q);
  }

  lemma SiblingUntouched(nodes: seq<Node>, nodes': seq<Node>, nodes1: seq<Node>, homes: seq<Home>,
                         p: nat, l: nat, lo: nat, i: nat, j: nat, q: nat)
    requires NodesOk(nodes, homes)
    requires p < |nodes| && homes[p] == Home(l, lo) && i < P_L2_SIZE && j < P_L2_SIZE && i != j
    requires |nodes| <= |nodes'| == |nodes1|
    requires forall n :: 0 <= n < |nodes| && !Within(homes[n], l, SlotLo(lo, l, i)) ==> nodes'[n] == nodes[n]
    requires forall n :: 0 <= n < |nodes'| && n != p ==> nodes1[n] == nodes'[n]
    ensures Walk(nodes1, nodes[p][j], l, q) == Walk(nodes, nodes[p][j], l, q)
  {
    assert NodeOk(homes, nodes[p], homes[p]);
    SpanStep(l);
    SlotMonotone(lo, l, if i < j then i else j, if i < j then j else i);
    WalkFrame(nodes, nodes1, homes, nodes[p][j], l, SlotLo(lo, l, j), q);
  }

  /** After a slot update, the other slots can still be set. */
  lemma SettableAfterUpdate(nodes: seq<Node>, homes: seq<Home>, nodes1: seq<Node>,
                            p: nat, l: nat, lo: nat, i: nat, j: nat, a: nat, b: nat)
    requires NodesOk(nodes, homes)
    requires p < |nodes| && homes[p] == Home(l, lo) && i < j < P_L2_SIZE
    requires |nodes| <= |nodes1|
    requires forall n :: 0 <= n < |nodes| && n != p && !Within(homes[n], l, SlotLo(lo, l, i)) ==> nodes1[n] == nodes[n]
    requires nodes1[p][j] == nodes[p][j]
    requires Settable(nodes, nodes[p][j], l, SlotLo(lo, l, j), a, b)
    ensures Settable(nodes1, nodes1[p][j], l, SlotLo(lo, l, j), a, b)
  {
    assert NodeOk(homes, nodes[p], homes[p]);
    SpanStep(l);
    SlotMonotone(lo, l, i, j);
    SlotAligned(lo, l, j);
    SettableFrame(nodes, nodes1, homes, nodes[p][j], l, SlotLo(lo, l, j), a, b);
  }

  /** Appending a fresh node keeps the array well formed, and nothing reaches it yet. */
  lemma AppendNode(nodes: seq<Node>, homes: seq<Home>, leaf: bool, h: Home)
    requires NodesOk(nodes, homes)
    requires h.level < P_L2_LEVELS && h.base % Span(h.level + 1) == 0
    requires leaf == (h.level == 0)
    ensures NodesOk(nodes + [FreshNode(leaf)], homes + [h])
    ensures forall q :: WalkNode(nodes + [FreshNode(leaf)], |nodes|, h.level, q) == PHYS_SECTION_UNASSIGNED
  {
  }

  /** Nodes a call of phys_page_set_level may allocate, by its level and by whether
      the pages to set start at the subtree's first page or reach its last one. */
  function AllocBound(level: nat, atStart: bool, atEnd: bool): nat {
    if atStart && atEnd then 1 else if atStart || atEnd then level + 1 else 2 * level + 1
  }

  /** Only nodes homed inside a slot differ between two states of the array. */
  ghost predicate Frame(nodes0: seq<Node>, homes0: seq<Home>, nodes1: seq<Node>, homes1: seq<Home>, l: nat, lo: nat) {
    && |nodes0| == |homes0| && |nodes1| == |homes1| && homes0 <= homes1
    && forall n :: 0 <= n < |nodes0| && !Within(homes0[n], l, lo) ==> nodes1[n] == nodes0[n]
  }

  /** `nodes1`, `e1` is the subtree `nodes0`, `e0` with the pages [a, b) sent to `leaf`
      and every other page of the subtree left as it was. */
  ghost predicate SetPages(nodes0: seq<Node>, e0: Entry, nodes1: seq<Node>, e1: Entry,
                           l: nat, lo: nat, a: nat, b: nat, leaf: nat)
  {
    forall q :: lo <= q < lo + Span(l) ==>
      Walk(nodes1, e1, l, q) == if a <= q < b then leaf else Walk(nodes0, e0, l, q)
  }

  ghost predicate PlainOk(nodes: seq<Node>, homes: seq<Home>) {
    NodesOk(nodes, homes) && Plain(nodes)
  }

  ghost predicate SlotsSettable(nodes: seq<Node>, p: nat, l: nat, lo: nat, a: nat, b: nat, i: nat)
    requires p < |nodes|
  {
    forall j :: i <= j < P_L2_SIZE ==> Settable(nodes, nodes[p][j], l, SlotLo(lo, l, j), a, b)
  }

  /** Pages below slot `i` of node `p` have been set for [a, b); the others go where they went. */
  ghost predicate PagesSet(nodesA: seq<Node>, nodes: seq<Node>,
                           p: nat, l: nat, lo: nat, a: nat, b: nat, leaf: nat, i: nat)
    requires p < |nodesA| && p < |nodes|
  {
    forall q :: lo <= q < lo + Span(l + 1) ==>
      WalkNode(nodes, p, l, q)
      == if a <= q < b && q < SlotLo(lo, l, i) then leaf else WalkNode(nodesA, p, l, q)
  }

  /** The loop invariant of phys_page_set_level on the node array. */
  ghost predicate NodeSet(nodesA: seq<Node>, homesA: seq<Home>, nodes: seq<Node>, homes: seq<Home>,
                          p: nat, l: nat, lo: nat, a: nat, b: nat, leaf: nat, i: nat)
  {
    && PlainOk(nodes, homes)
    && Frame(nodesA, homesA, nodes, homes, l + 1, lo)
    && p < |homesA| && homesA[p] == Home(l, lo)
    && SlotsSettable(nodes, p, l, lo, a, b, i)
    && PagesSet(nodesA, nodes, p, l, lo, a, b, leaf, i)
  }

  /** The result of the work on slot `i`: entry `c`, in the array `nodes'`. */
  ghost predicate SlotDone(nodes: seq<Node>, homes: seq<Home>, nodes': seq<Node>, homes': seq<Home>,
                           c: Entry, p: nat, l: nat, lo: nat, i: nat)
  {
    && NodesOk(nodes, homes) && p < |nodes| && homes[p] == Home(l, lo) && i < P_L2_SIZE
    && PlainOk(nodes', homes')
    && EntryOk(homes', c, l, SlotLo(lo, l, i)) && c.skip <= 1
    && Frame(nodes, homes, nodes', homes', l, SlotLo(lo, l, i))
  }

  lemma FrameStep(nodesA: seq<Node>, homesA: seq<Home>, nodes: seq<Node>, homes: seq<Home>,
                  nodes': seq<Node>, homes': seq<Home>, c: Entry, p: nat, l: nat, lo: nat, i: nat)
    requires Frame(nodesA, homesA, nodes, homes, l + 1, lo)
    requires Frame(nodes, homes, nodes', homes', l, SlotLo(lo, l, i))
    requires p < |homesA| && homesA[p] == Home(l, lo) && i < P_L2_SIZE
    ensures Frame(nodesA, homesA, nodes'[p := nodes'[p][i := c]], homes', l + 1, lo)
  {
    var nodes1 := nodes'[p := nodes'[p][i := c]];
    SlotInNode(lo, l, i);
    forall n | 0 <= n < |nodesA| && !Within(homesA[n], l + 1, lo) ensures nodes1[n] == nodesA[n] {
      assert homes[n] == homesA[n] && n != p;
      assert !Within(homes[n], l, SlotLo(lo, l, i));
    }
  }

  lemma PlainStep(nodes: seq<Node>, c: Entry, p: nat, i: nat)
    requires Plain(nodes) && p < |nodes| && i < P_L2_SIZE && c.skip <= 1
    ensures Plain(nodes[p := nodes[p][i := c]])
  {
  }

  lemma SlotsSettableStep(nodes: seq<Node>, homes: seq<Home>, nodes': seq<Node>, homes': seq<Home>, c: Entry,
                          p: nat, l: nat, lo: nat, a: nat, b: nat, i: nat)
    requires SlotDone(nodes, homes, nodes', homes', c, p, l, lo, i)
    requires SlotsSettable(nodes, p, l, lo, a, b, i)
    ensures SlotsSettable(nodes'[p := nodes'[p][i := c]], p, l, lo, a, b, i + 1)
  {
    var nodes1 := nodes'[p := nodes'[p][i := c]];
    NotWithinSlot(lo, l, i);
    assert nodes'[p] == nodes[p];
    forall j | i + 1 <= j < P_L2_SIZE ensures Settable(nodes1, nodes1[p][j], l, SlotLo(lo, l, j), a, b) {
      SettableAfterUpdate(nodes, homes, nodes1, p, l, lo, i, j, a, b);
    }
  }

  lemma PagesSetStep(nodesA: seq<Node>, nodes: seq<Node>, nodes1: seq<Node>,
                     p: nat, l: nat, lo: nat, a: nat, b: nat, leaf: nat, i: nat)
    requires p < |nodesA| && p < |nodes| && p < |nodes1| && lo % Span(l + 1) == 0 && i < P_L2_SIZE
    requires PagesSet(nodesA, nodes, p, l, lo, a, b, leaf, i)
    requires forall q :: lo <= q < lo + Span(l + 1) ==>
               WalkNode(nodes1, p, l, q)
               == if !InSlot(q, lo, l, i) then WalkNode(nodes, p, l, q)
                  else if a <= q < b then leaf else Walk(nodes, nodes[p][i], l, q)
    ensures PagesSet(nodesA, nodes1, p, l, lo, a, b, leaf, i + 1)
  {
    SlotSucc(lo, l, i);
    forall q | lo <= q < lo + Span(l + 1)
      ensures WalkNode(nodes1, p, l, q)
              == if a <= q < b && q < SlotLo(lo, l, i + 1) then leaf else WalkNode(nodesA, p, l, q)
    {
      if InSlot(q, lo, l, i) {
        DigitInSlot(q, l, lo, i);
        assert WalkNode(nodes, p, l, q) == Walk(nodes, nodes[p][i], l, q);
      }
    }
  }

  lemma NodeSetStep(nodesA: seq<Node>, homesA: seq<Home>, nodes: seq<Node>, homes: seq<Home>,
                    nodes': seq<Node>, homes': seq<Home>, c: Entry,
                    p: nat, l: nat, lo: nat, a: nat, b: nat, leaf: nat, i: nat)
    requires NodeSet(nodesA, homesA, nodes, homes, p, l, lo, a, b, leaf, i)
    requires SlotDone(nodes, homes, nodes', homes', c, p, l, lo, i)
    requires forall q :: SlotLo(lo, l, i) <= q < SlotLo(lo, l, i) + Span(l) ==>
               Walk(nodes', c, l, q) == if a <= q < b then leaf else Walk(nodes, nodes[p][i], l, q)
    ensures NodeSet(nodesA, homesA, nodes'[p := nodes'[p][i := c]], homes', p, l, lo, a, b, leaf, i + 1)
  {
    var nodes1 := nodes'[p := nodes'[p][i := c]];
    assert NodeOk(homes, nodes[p], homes[p]);
    SlotUpdate(nodes, homes, nodes', homes', p, l, lo, i, c);
    FrameStep(nodesA, homesA, nodes, homes, nodes', homes', c, p, l, lo, i);
    PlainStep(nodes', c, p, i);
    SlotsSettableStep(nodes, homes, nodes', homes', c, p, l, lo, a, b, i);
    PagesSetStep(nodesA, nodes, nodes1, p, l, lo, a, b, leaf, i);
  }

  /** Storing a leaf in a slot that lies inside [a, b). */
  lemma NodeSetLeaf(nodesA: seq<Node>, homesA: seq<Home>, nodes: seq<Node>, homes: seq<Home>,
                    p: nat, l: nat, lo: nat, a: nat, b: nat, leaf: nat, i: nat)
    requires NodeSet(nodesA, homesA, nodes, homes, p, l, lo, a, b, leaf, i) && i < P_L2_SIZE
    requires a <= SlotLo(lo, l, i) && SlotLo(lo, l, i) + Span(l) <= b
    requires PHYS_SECTION_UNASSIGNED < leaf < PHYS_MAP_NODE_NIL
    ensures NodeSet(nodesA, homesA, nodes[p := nodes[p][i := Entry(0, leaf)]], homes, p, l, lo, a, b, leaf, i + 1)
  {
    NodeSetStep(nodesA, homesA, nodes, homes, nodes, homes, Entry(0, leaf), p, l, lo, a, b, leaf, i);
  }

  /** Taking over the result of the call one level down. */
  lemma NodeSetChild(nodesA: seq<Node>, homesA: seq<Home>, nodes: seq<Node>, homes: seq<Home>,
                     nodes': seq<Node>, homes': seq<Home>, c: Entry,
                     p: nat, l: nat, lo: nat, a: nat, b: nat, leaf: nat, i: nat)
    requires NodeSet(nodesA, homesA, nodes, homes, p, l, lo, a, b, leaf, i) && i < P_L2_SIZE
    requires PlainOk(nodes', homes')
    requires EntryOk(homes', c, l, SlotLo(lo, l, i)) && c.skip <= 1
    requires Frame(nodes, homes, nodes', homes', l, SlotLo(lo, l, i))
    requires SetPages(nodes, nodes[p][i], nodes', c, l, SlotLo(lo, l, i), a, b, leaf)
    ensures NodeSet(nodesA, homesA, nodes'[p := nodes'[p][i := c]], homes', p, l, lo, a, b, leaf, i + 1)
  {
    NodeSetStep(nodesA, homesA, nodes, homes, nodes', homes', c, p, l, lo, a, b, leaf, i);
  }

  /** The recursion only descends where the entry is not a leaf. */
  lemma ChildReady(nodesA: seq<Node>, homesA: seq<Home>, nodes: seq<Node>, homes: seq<Home>,
                   p: nat, l: nat, lo: nat, a: nat, b: nat, leaf: nat, i: nat, index: nat)
    requires NodeSet(nodesA, homesA, nodes, homes, p, l, lo, a, b, leaf, i) && i < P_L2_SIZE && l > 0
    requires InSlot(index, lo, l, i) && a <= index < b
    requires !(a <= SlotLo(lo, l, i) && SlotLo(lo, l, i) + Span(l) <= b)
    ensures var e := nodes[p][i];
            && e.skip == 1 && EntryOk(homes, e, l, SlotLo(lo, l, i)) && SlotLo(lo, l, i) % Span(l) == 0
            && (e.ptr == PHYS_MAP_NODE_NIL ||
                (e.ptr < |nodes| && SlotsSettable(nodes, e.ptr, l - 1, SlotLo(lo, l, i), a, b, 0)))
  {
    assert NodeOk(homes, nodes[p], homes[p]);
    SlotAligned(lo, l, i);
    assert Settable(nodes, nodes[p][i], l, SlotLo(lo, l, i), a, b);
  }

  /** Where the loop of phys_page_set_level stands when it comes to slot `i`. */
  ghost predicate Cursor(index: nat, index': nat, nb': nat, l: nat, lo: nat, b: nat, i0: nat, i: nat) {
    && i0 <= i <= P_L2_SIZE && index' + nb' == b && index <= index'
    && (nb' > 0 && i == i0 ==> index' == index && InSlot(index', lo, l, i))
    && (nb' > 0 && i > i0 ==> index' == SlotLo(lo, l, i))
    && (nb' == 0 ==> i > i0 && index' == b <= SlotLo(lo, l, i))
  }

  lemma CursorFacts(index: nat, index': nat, nb': nat, l: nat, lo: nat, a: nat, b: nat, i0: nat, i: nat)
    requires lo % Span(l + 1) == 0 && lo <= index && index <= b
    requires a <= index && (index == a || index == lo)
    requires Cursor(index, index', nb', l, lo, b, i0, i) && nb' > 0 && i < P_L2_SIZE
    ensures InSlot(index', lo, l, i) && lo <= SlotLo(lo, l, i)
    ensures index' == a || index' == SlotLo(lo, l, i)
    ensures SlotLo(lo, l, i) + Span(l) == SlotLo(lo, l, i + 1) <= lo + Span(l + 1)
    ensures index' % Span(l) == 0 && nb' >= Span(l) <==>
            a <= SlotLo(lo, l, i) && SlotLo(lo, l, i) + Span(l) <= b
    ensures index' % Span(l) == 0 <==> index' == SlotLo(lo, l, i)
    ensures index == lo ==> index' == SlotLo(lo, l, i)
  {
    SlotInNode(lo, l, i);
    SlotSucc(lo, l, i);
    SlotAligned(lo, l, i);
    if index' % Span(l) == 0 {
      MultiplesInWindow(SlotLo(lo, l, i), index', Span(l));
    }
    if index == lo {
      SlotZero(lo, l);
      if i > 0 {
        SlotMonotone(lo, l, 0, i);
      }
    }
  }

  /** Nodes allocated so far by one call, `n - n0`, against its bound. */
  ghost predicate Budget(n0: nat, n: nat, index: nat, nb': nat, l: nat, lo: nat, b: nat, i0: nat, i: nat) {
    if nb' > 0
    then n <= n0 + 1 + (if i > i0 && index % Span(l) != 0 then l else 0)
    else n <= n0 + AllocBound(l, index == lo, b >= lo + Span(l + 1))
  }

  lemma AfterLeaf(index: nat, index': nat, nb': nat, l: nat, lo: nat, a: nat, b: nat, i0: nat, i: nat,
                  n0: nat, n: nat)
    requires lo % Span(l + 1) == 0 && lo <= index && index <= b
    requires a <= index && (index == a || index == lo)
    requires Cursor(index, index', nb', l, lo, b, i0, i) && nb' > 0 && i < P_L2_SIZE
    requires index' % Span(l) == 0 && nb' >= Span(l)
    requires Budget(n0, n, index, nb', l, lo, b, i0, i)
    ensures Cursor(index, index' + Span(l), nb' - Span(l), l, lo, b, i0, i + 1)
    ensures Budget(n0, n, index, nb' - Span(l), l, lo, b, i0, i + 1)
  {
    CursorFacts(index, index', nb', l, lo, a, b, i0, i);
    assert i > i0 || index' == index;
    if index == lo {
      SlotZero(lo, l);
      SlotAligned(lo, l, 0);
    }
  }

  lemma BeforeChild(index: nat, index': nat, nb': nat, l: nat, lo: nat, a: nat, b: nat, i0: nat, i: nat,
                    n0: nat, n: nat, n': nat)
    requires l > 0 && lo % Span(l + 1) == 0 && lo <= index && index <= b
    requires a <= index && (index == a || index == lo)
    requires Cursor(index, index', nb', l, lo, b, i0, i) && nb' > 0 && i < P_L2_SIZE
    requires !(index' % Span(l) == 0 && nb' >= Span(l))
    requires Budget(n0, n, index, nb', l, lo, b, i0, i)
    requires n' <= n + AllocBound(l - 1, index' == SlotLo(lo, l, i), b >= SlotLo(lo, l, i) + Span(l))
    ensures n' <= n0 + AllocBound(l, index == lo, b >= lo + Span(l + 1))
    ensures b > SlotLo(lo, l, i) + Span(l) ==> n' <= n0 + 1 + l && i == i0 && index % Span(l) != 0
  {
    CursorFacts(index, index', nb', l, lo, a, b, i0, i);
    SlotInNode(lo, l, i);
    if index == lo {
      SlotZero(lo, l);
      SlotAligned(lo, l, 0);
    }
  }

  lemma AfterChild(index: nat, index': nat, nb': nat, index1: nat, nb1: nat,
                   l: nat, lo: nat, a: nat, b: nat, i0: nat, i: nat, n0: nat, n: nat, n': nat)
    requires l > 0 && lo % Span(l + 1) == 0 && lo <= index && index <= b
    requires a <= index && (index == a || index == lo)
    requires Cursor(index, index', nb', l, lo, b, i0, i) && nb' > 0 && i < P_L2_SIZE
    requires !(index' % Span(l) == 0 && nb' >= Span(l))
    requires Budget(n0, n, index, nb', l, lo, b, i0, i)
    requires n' <= n + AllocBound(l - 1, index' == SlotLo(lo, l, i), b >= SlotLo(lo, l, i) + Span(l))
    requires index1 == (if b < SlotLo(lo, l, i) + Span(l) then b else SlotLo(lo, l, i) + Span(l)) && index1 + nb1 == b
    ensures Cursor(index, index1, nb1, l, lo, b, i0, i + 1)
    ensures Budget(n0, n', index, nb1, l, lo, b, i0, i + 1)
  {
    CursorFacts(index, index', nb', l, lo, a, b, i0, i);
    BeforeChild(index, index', nb', l, lo, a, b, i0, i, n0, n, n');
  }

  lemma LoopExit(index: nat, index': nat, nb': nat, l: nat, lo: nat, b: nat, i0: nat, i: nat, n0: nat, n: nat)
    requires lo % Span(l + 1) == 0 && lo <= index < lo + Span(l + 1)
    requires Cursor(index, index', nb', l, lo, b, i0, i) && i0 < P_L2_SIZE
    requires nb' == 0 || i == P_L2_SIZE
    requires Budget(n0, n, index, nb', l, lo, b, i0, i)
    ensures index' == (if b < lo + Span(l + 1) then b else lo + Span(l + 1))
    ensures n <= n0 + AllocBound(l, index == lo, b >= lo + Span(l + 1))
    ensures i == P_L2_SIZE || b <= SlotLo(lo, l, i)
  {
    SlotZero(lo, l);
    if i < P_L2_SIZE {
      SlotInNode(lo, l, i);
    }
    if index == lo {
      SlotAligned(lo, l, 0);
    }
  }

  lemma MultiplesInWindow(x: nat, y: nat, s: nat)
    requires s > 0 && x % s == 0 && y % s == 0 && x <= y < x + s
    ensures x == y
  {
    var i, j := x / s, y / s;
    assert x == i * s && y == j * s;
    assert j >= i + 1 ==> j * s >= (i + 1) * s;
    assert i >= j + 1 ==> i * s >= (j + 1) * s;
  }

  lemma FreshSettable(nodes: seq<Node>, p: nat, l: nat, lo: nat, a: nat, b: nat)
    requires p < |nodes| && nodes[p] == FreshNode(l == 0)
    ensures forall j :: 0 <= j < P_L2_SIZE ==> Settable(nodes, nodes[p][j], l, SlotLo(lo, l, j), a, b)
  {
  }

  /** After the loop: the whole subtree has been set. */
  lemma PagesSetDone(nodes0: seq<Node>, e: Entry, nodesA: seq<Node>, nodes: seq<Node>,
                     p: nat, l: nat, lo: nat, a: nat, b: nat, leaf: nat, i: nat)
    requires p < |nodesA| && p < |nodes| && p != PHYS_MAP_NODE_NIL
    requires PagesSet(nodesA, nodes, p, l, lo, a, b, leaf, i)
    requires i == P_L2_SIZE || b <= SlotLo(lo, l, i)
    requires forall q :: lo <= q < lo + Span(l + 1) ==>
               WalkNode(nodesA, p, l, q) == Walk(nodes0, e, l + 1, q)
    ensures SetPages(nodes0, e, nodes, Entry(1, p), l + 1, lo, a, b, leaf)
  {
    SlotZero(lo, l);
    var e1, k := Entry(1, p), l + 1;
    forall q | lo <= q < lo + Span(k)
      ensures Walk(nodes, e1, k, q) == if a <= q < b then leaf else Walk(nodes0, e, k, q)
    {
      assert Walk(nodes, e1, k, q) == WalkNode(nodes, p, l, q);
    }
  }

  /** phys_map_node_alloc on the array `nodes`; its two assertions are the preconditions. */
  method NodeAlloc(nodes: seq<Node>, nodesNbAlloc: nat, leaf: bool) returns (nodes': seq<Node>, ret: nat)
    requires |nodes| != PHYS_MAP_NODE_NIL
    requires |nodes| < nodesNbAlloc
    ensures ret == |nodes| && nodes' == nodes + [FreshNode(leaf)]
  {
    ret := |nodes|;
    var e := Entry(if leaf then 0 else 1, if leaf then PHYS_SECTION_UNASSIGNED else PHYS_MAP_NODE_NIL);
    var p: seq<Entry> := [];
    for i := 0 to P_L2_SIZE
      invariant |p| == i && forall j :: 0 <= j < i ==> p[j] == e
    {
      p := p + [e];
    }
    assert p == FreshNode(leaf);
    nodes' := nodes + [p];
  }

  /** The head of phys_page_set_level: the node below `e`, allocated if it is missing. */
  method ChildNode(nodes: seq<Node>, nodesNbAlloc: nat, e: Entry, level: nat,
                   ghost homes: seq<Home>, ghost lo: nat, ghost a: nat, ghost b: nat)
    returns (nodes': seq<Node>, p: nat, ghost homes': seq<Home>)
    requires PlainOk(nodes, homes)
    requires level < P_L2_LEVELS && lo % Span(level + 1) == 0
    requires e.skip == 1 && EntryOk(homes, e, level + 1, lo)
    requires e.ptr == PHYS_MAP_NODE_NIL || SlotsSettable(nodes, e.ptr, level, lo, a, b, 0)
    requires |nodes| < nodesNbAlloc && |nodes| < PHYS_MAP_NODE_NIL
    ensures PlainOk(nodes', homes') && Frame(nodes, homes, nodes', homes', level + 1, lo)
    ensures p < |homes'| && homes'[p] == Home(level, lo) && p != PHYS_MAP_NODE_NIL
    ensures |nodes'| <= |nodes| + 1
    ensures SlotsSettable(nodes', p, level, lo, a, b, 0)
    ensures forall q :: lo <= q < lo + Span(level + 1) ==> WalkNode(nodes', p, level, q) == Walk(nodes, e, level + 1, q)
  {
    nodes', p, homes' := nodes, e.ptr, homes;
    if e.ptr == PHYS_MAP_NODE_NIL {
      AppendNode(nodes, homes, level == 0, Home(level, lo));
      nodes', p := NodeAlloc(nodes, nodesNbAlloc, level == 0);
      homes' := homes + [Home(level, lo)];
      FreshSettable(nodes', p, level, lo, a, b);
    } else {
      assert homes[p] == Home(level, lo);
    }
  }

  /** phys_page_set_level. The C code updates the array, `*lp`, `*index` and `*nb` in
      place; here they are passed in and come back as results. `lo` is the subtree's
      first page, and [a, b) the whole range being set, of which `index` is the next page. */
  method SetLevel(nodes: seq<Node>, nodesNbAlloc: nat, e: Entry, index: nat, nb: nat, leaf: nat, level: nat,
                  ghost homes: seq<Home>, ghost lo: nat, ghost a: nat, ghost b: nat)
    returns (nodes': seq<Node>, e': Entry, index': nat, nb': nat, ghost homes': seq<Home>)
    requires PlainOk(nodes, homes)
    requires level < P_L2_LEVELS && lo % Span(level + 1) == 0
    requires e.skip == 1 && EntryOk(homes, e, level + 1, lo)
    requires nb > 0 && lo <= index < lo + Span(level + 1)
    requires b == index + nb && a <= index && (index == a || index == lo)
    requires PHYS_SECTION_UNASSIGNED < leaf < PHYS_MAP_NODE_NIL
    requires e.ptr == PHYS_MAP_NODE_NIL || SlotsSettable(nodes, e.ptr, level, lo, a, b, 0)
    requires |nodes| + AllocBound(level, index == lo, b >= lo + Span(level + 1)) <= nodesNbAlloc
    requires |nodes| + AllocBound(level, index == lo, b >= lo + Span(level + 1)) <= PHYS_MAP_NODE_NIL
    ensures PlainOk(nodes', homes') && Frame(nodes, homes, nodes', homes', level + 1, lo)
    ensures e'.skip == 1 && e'.ptr != PHYS_MAP_NODE_NIL && EntryOk(homes', e', level + 1, lo)
    ensures index' == (if b < lo + Span(level + 1) then b else lo + Span(level + 1)) && index' + nb' == b
    ensures |nodes'| <= |nodes| + AllocBound(level, index == lo, b >= lo + Span(level + 1))
    ensures SetPages(nodes, e, nodes', e', level + 1, lo, a, b, leaf)
    decreases level, 2
  {
    var p;
    nodes', p, homes' := ChildNode(nodes, nodesNbAlloc, e, level, homes, lo, a, b);
    e' := Entry(e.skip, p);
    ghost var nodesA, homesA, i0 := nodes', homes', Digit(index, level);
    LoopStart(nodesA, homesA, p, index, nb, leaf, level, lo, a, b, |nodes|);
    ghost var i;
    nodes', index', nb', homes', i :=
      SetSlots(nodes', nodesNbAlloc, p, index, nb, leaf, level, nodesA, homesA, homes', lo, a, b, |nodes|);
    LoopExit(index, index', nb', level, lo, b, i0, i, |nodes|, |nodes'|);
    PagesSetDone(nodes, e, nodesA, nodes', p, level, lo, a, b, leaf, i);
  }

  /** The loop of phys_page_set_level over the slots of node `p`. */
  method SetSlots(nodes: seq<Node>, nodesNbAlloc: nat, p: nat, index: nat, nb: nat, leaf: nat, level: nat,
                  ghost nodesA: seq<Node>, ghost homesA: seq<Home>, ghost homes: seq<Home>,
                  ghost lo: nat, ghost a: nat, ghost b: nat, ghost n0: nat)
    returns (nodes': seq<Node>, index': nat, nb': nat, ghost homes': seq<Home>, ghost i': nat)
    requires level < P_L2_LEVELS && lo % Span(level + 1) == 0 && lo <= index <= b
    requires a <= index && (index == a || index == lo)
    requires PHYS_SECTION_UNASSIGNED < leaf < PHYS_MAP_NODE_NIL
    requires n0 + AllocBound(level, index == lo, b >= lo + Span(level + 1)) <= nodesNbAlloc
    requires n0 + AllocBound(level, index == lo, b >= lo + Span(level + 1)) <= PHYS_MAP_NODE_NIL
    requires LoopInv(nodesA, homesA, nodes, homes, p, index, index, nb, leaf, level, lo, a, b,
                     Digit(index, level), Digit(index, level), n0)
    ensures LoopInv(nodesA, homesA, nodes', homes', p, index, index', nb', leaf, level, lo, a, b,
                    Digit(index, level), i', n0)
    ensures nb' == 0 || i' == P_L2_SIZE
    decreases level, 1
  {
    nodes', homes' := nodes, homes;
    var i: nat := Digit(index, level);
    ghost var i0 := i;
    index', nb' := index, nb;
    while nb' != 0 && i < P_L2_SIZE
      invariant i <= P_L2_SIZE
      invariant LoopInv(nodesA, homesA, nodes', homes', p, index, index', nb', leaf, level, lo, a, b, i0, i, n0)
      decreases P_L2_SIZE - i
    {
      if index' % Span(level) == 0 && nb' >= Span(level) {
        SlotIsWhole(nodesA, homesA, nodes', homes', p, i, index', nb', leaf, level, lo, a, b, index, i0, n0);
        nodes' := nodes'[p := nodes'[p][i := Entry(0, leaf)]];
        index', nb' := index' + Span(level), nb' - Span(level);
      } else {
        nodes', index', nb', homes' :=
          SetChild(nodes', nodesNbAlloc, p, i, index', nb', leaf, level, nodesA, homesA, homes', lo, a, b, index, i0,
                   n0);
      }
      i := i + 1;
    }
    i' := i;
  }

  lemma LoopStart(nodes: seq<Node>, homes: seq<Home>, p: nat, index: nat, nb: nat, leaf: nat, level: nat,
                  lo: nat, a: nat, b: nat, n0: nat)
    requires PlainOk(nodes, homes) && p < |nodes| && homes[p] == Home(level, lo)
    requires lo % Span(level + 1) == 0 && lo <= index < lo + Span(level + 1)
    requires nb > 0 && b == index + nb && a <= index && (index == a || index == lo)
    requires SlotsSettable(nodes, p, level, lo, a, b, 0)
    requires |nodes| <= n0 + 1
    ensures LoopInv(nodes, homes, nodes, homes, p, index, index, nb, leaf, level, lo, a, b,
                    Digit(index, level), Digit(index, level), n0)
  {
    var i0 := Digit(index, level);
    SlotOfDigit(index, level, lo);
    SlotZero(lo, level);
    if index == lo {
      DigitInSlot(index, level, lo, 0);
    }
    assert PagesSet(nodes, nodes, p, level, lo, a, b, leaf, i0);
  }

  ghost predicate LoopInv(nodesA: seq<Node>, homesA: seq<Home>, nodes: seq<Node>, homes: seq<Home>,
                          p: nat, index0: nat, index: nat, nb: nat, leaf: nat, level: nat,
                          lo: nat, a: nat, b: nat, i0: nat, i: nat, n0: nat)
  {
    && Cursor(index0, index, nb, level, lo, b, i0, i)
    && Budget(n0, |nodes|, index0, nb, level, lo, b, i0, i)
    && NodeSet(nodesA, homesA, nodes, homes, p, level, lo, a, b, leaf, i)
  }

  /** The leaf case of phys_page_set_level keeps the loop's invariants. */
  lemma SlotIsWhole(nodesA: seq<Node>, homesA: seq<Home>, nodes: seq<Node>, homes: seq<Home>,
                    p: nat, i: nat, index: nat, nb: nat, leaf: nat, level: nat,
                    lo: nat, a: nat, b: nat, index0: nat, i0: nat, n0: nat)
    requires lo % Span(level + 1) == 0 && lo <= index0 <= b
    requires a <= index0 && (index0 == a || index0 == lo)
    requires PHYS_SECTION_UNASSIGNED < leaf < PHYS_MAP_NODE_NIL
    requires nb > 0 && i < P_L2_SIZE && index % Span(level) == 0 && nb >= Span(level)
    requires LoopInv(nodesA, homesA, nodes, homes, p, index0, index, nb, leaf, level, lo, a, b, i0, i, n0)
    ensures LoopInv(nodesA, homesA, nodes[p := nodes[p][i := Entry(0, leaf)]], homes,
                    p, index0, index + Span(level), nb - Span(level), leaf, level, lo, a, b, i0, i + 1, n0)
  {
    CursorFacts(index0, index, nb, level, lo, a, b, i0, i);
    NodeSetLeaf(nodesA, homesA, nodes, homes, p, level, lo, a, b, leaf, i);
    AfterLeaf(index0, index, nb, level, lo, a, b, i0, i, n0, |nodes|);
  }

  /** The recursive call of phys_page_set_level on slot `i` of node `p`. */
  method SetChild(nodes: seq<Node>, nodesNbAlloc: nat, p: nat, i: nat, index: nat, nb: nat, leaf: nat, level: nat,
                  ghost nodesA: seq<Node>, ghost homesA: seq<Home>, ghost homes: seq<Home>,
                  ghost lo: nat, ghost a: nat, ghost b: nat, ghost index0: nat, ghost i0: nat, ghost n0: nat)
    returns (nodes': seq<Node>, index': nat, nb': nat, ghost homes': seq<Home>)
    requires level < P_L2_LEVELS && lo % Span(level + 1) == 0 && lo <= index0 <= b
    requires a <= index0 && (index0 == a || index0 == lo)
    requires PHYS_SECTION_UNASSIGNED < leaf < PHYS_MAP_NODE_NIL
    requires nb > 0 && i < P_L2_SIZE && !(index % Span(level) == 0 && nb >= Span(level))
    requires LoopInv(nodesA, homesA, nodes, homes, p, index0, index, nb, leaf, level, lo, a, b, i0, i, n0)
    requires n0 + AllocBound(level, index0 == lo, b >= lo + Span(level + 1)) <= nodesNbAlloc
    requires n0 + AllocBound(level, index0 == lo, b >= lo + Span(level + 1)) <= PHYS_MAP_NODE_NIL
    ensures LoopInv(nodesA, homesA, nodes', homes', p, index0, index', nb', leaf, level, lo, a, b, i0, i + 1, n0)
    decreases level, 0
  {
    CursorFacts(index0, index, nb, level, lo, a, b, i0, i);
    ChildReady(nodesA, homesA, nodes, homes, p, level, lo, a, b, leaf, i, index);
    BeforeChild(index0, index, nb, level, lo, a, b, i0, i, n0, |nodes|,
                |nodes| +
                AllocBound(level - 1, index == SlotLo(lo, level, i), b >= SlotLo(lo, level, i) + Span(level)));
    var c;
    nodes', c, index', nb', homes' :=
      SetLevel(nodes, nodesNbAlloc, nodes[p][i], index, nb, leaf, level - 1, homes, SlotLo(lo, level, i), a, b);
    NodeSetChild(nodesA, homesA, nodes, homes, nodes', homes', c, p, level, lo, a, b, leaf, i);
    AfterChild(index0, index, nb, index', nb', level, lo, a, b, i0, i, n0, |nodes|, |nodes'|);
    nodes' := nodes'[p := nodes'[p][i := c]];
  }
}
