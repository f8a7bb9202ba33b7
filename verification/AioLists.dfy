/** The bottom-half and fd-handler lists of async.c and aio-posix.c, walked by nested or
    concurrent aio_poll calls while callbacks add and delete entries. */
module AioLists {

  import opened Basics

  type Id = nat

  datatype Bh = Bh(scheduled: bool, deleted: bool)
  datatype Handler = Handler(fd: int, deleted: bool)

  /** One aio_poll call. The context lock lets at most one call be between callbacks, in
      BhAt or HAt; the others wait in poll() or in a callback, where any code may run.
      Bottom halves are made, scheduled, cancelled and deleted by any thread at any time. */
  datatype Frame =
    | PollWait(nodes: seq<Id>)          // aio_poll, with nodes[] filled
    | BhAt(bh: Option<Id>)              // aio_bh_poll, about to look at bh
    | BhCall(next: Option<Id>)          // aio_bh_poll, in a callback, next already read
    | HAt(node: Option<Id>)             // aio_dispatch, about to look at node
    | HRead(n: Id, writeReady: bool)    // aio_dispatch, in node->io_read
    | HWrite(n: Id)                     // aio_dispatch, in node->io_write
    | Done

  /** The bottom halves: the list, and for every one ever made its flags. `freed` were
      given back to the allocator, `dropped` are those somebody deleted; `schedules` and
      `runs` count qemu_bh_schedule calls and callback runs. */
  datatype BhPart = BhPart(list: seq<Id>, bhs: map<Id, Bh>, walking: nat, freed: set<Id>, dropped: set<Id>,
                           schedules: map<Id, nat>, runs: map<Id, nat>)

  /** The fd handlers, likewise. */
  datatype HPart = HPart(list: seq<Id>, handlers: map<Id, Handler>, walking: nat, freed: set<Id>, dropped: set<Id>)

  datatype State = State(b: BhPart, h: HPart, frames: seq<Frame>)

  datatype Step =
    | NewBh(id: Id) | ScheduleBh(id: Id) | CancelBh(id: Id) | DeleteBh(id: Id)
    | SetFdHandler(fd: int, install: bool, id: Id)
    | BeginPoll
    | PollReturns(i: nat) | BhStep(i: nat) | BhReturns(i: nat)
    | HStep(i: nat, readReady: bool, writeReady: bool) | HReturns(i: nat)

  predicate Active(f: Frame) {
    f.BhAt? || f.HAt?
  }

  /** No aio_poll call is between callbacks, so outside code may run. */
  predicate Quiet(frames: seq<Frame>) {
    forall i :: 0 <= i < |frames| ==> !Active(frames[i])
  }

  function First(list: seq<Id>): Option<Id> {
    if list == [] then None else Some(list[0])
  }

  /** The `next` pointer of entry `x`. */
  function NextOf(list: seq<Id>, x: Id): Option<Id> {
    if list == [] then None
    else if list[0] == x then First(list[1..])
    else NextOf(list[1..], x)
  }

  function Remove(list: seq<Id>, x: Id): seq<Id> {
    if list == [] then []
    else if list[0] == x then list[1..]
    else [list[0]] + Remove(list[1..], x)
  }

  /** find_aio_handler */
  function FindHandler(list: seq<Id>, handlers: map<Id, Handler>, fd: int): Option<Id> {
    if list == [] then None
    else if list[0] in handlers && handlers[list[0]].fd == fd && !handlers[list[0]].deleted then Some(list[0])
    else FindHandler(list[1..], handlers, fd)
  }

  /** The list after the removal loop at the end of aio_bh_poll. */
  function Sweep(list: seq<Id>, bhs: map<Id, Bh>): seq<Id> {
    if list == [] then []
    else if list[0] in bhs && bhs[list[0]].deleted then Sweep(list[1..], bhs)
    else [list[0]] + Sweep(list[1..], bhs)
  }

  /** The nodes aio_poll waits for. */
  function LiveNodes(list: seq<Id>, handlers: map<Id, Handler>): seq<Id> {
    if list == [] then []
    else if list[0] in handlers && !handlers[list[0]].deleted then [list[0]] + LiveNodes(list[1..], handlers)
    else LiveNodes(list[1..], handlers)
  }

  function Elems(list: seq<Id>): set<Id> {
    set x | x in list
  }

  function Count(m: map<Id, nat>, id: Id): nat {
    if id in m then m[id] else 0
  }

  function Pred(n: nat): nat {
    if n == 0 then 0 else n - 1
  }

  predicate Usable(b: BhPart, id: Id) {
    id in b.list && id in b.bhs && !b.bhs[id].deleted
  }

  predicate Enabled(s: State, step: Step) {
    match step
    case NewBh(id) => id !in s.b.bhs
    case ScheduleBh(id) => Usable(s.b, id)
    case CancelBh(id) => Usable(s.b, id)
    case DeleteBh(id) => Usable(s.b, id)
    case SetFdHandler(fd, install, id) => Quiet(s.frames) && id !in s.h.handlers
    case BeginPoll => Quiet(s.frames)
    case PollReturns(i) => Quiet(s.frames) && i < |s.frames| && s.frames[i].PollWait?
    case BhStep(i) => i < |s.frames| && s.frames[i].BhAt?
    case BhReturns(i) => Quiet(s.frames) && i < |s.frames| && s.frames[i].BhCall?
    case HStep(i, _, _) => i < |s.frames| && s.frames[i].HAt?
    case HReturns(i) => Quiet(s.frames) && i < |s.frames| && (s.frames[i].HRead? || s.frames[i].HWrite?)
  }

  /** aio_set_fd_handler */
  function SetHandler(h: HPart, fd: int, install: bool, id: Id): HPart {
    var node := FindHandler(h.list, h.handlers, fd);
    if !install then
      if node.None? then h
      else if h.walking > 0 then
        h.(handlers := h.handlers[node.value := Handler(fd, true)], dropped := h.dropped + {node.value})
      else
        h.(list := Remove(h.list, node.value), freed := h.freed + {node.value}, dropped := h.dropped + {node.value})
    else if node.None? then
      h.(list := [id] + h.list, handlers := h.handlers[id := Handler(fd, false)])
    else h
  }

  /** The end of one turn of the handler walk, after stepping on to the next node: a
      deleted node is freed if nobody else walks. */
  function FinishHandler(h: HPart, n: Id): HPart {
    var h1 := h.(walking := Pred(h.walking));
    if h1.walking == 0 && n in h.handlers && h.handlers[n].deleted
    then h1.(list := Remove(h.list, n), freed := h.freed + {n})
    else h1
  }

  /** A bottom half's turn in aio_bh_poll, when its callback is due. */
  predicate Due(b: BhPart, id: Id) {
    id in b.bhs && !b.bhs[id].deleted && b.bhs[id].scheduled
  }

  function TakeBh(b: BhPart, id: Id): BhPart {
    b.(bhs := b.bhs[id := Bh(false, false)], runs := b.runs[id := Count(b.runs, id) + 1])
  }

  /** The end of aio_bh_poll: the outermost walker removes the deleted bottom halves. */
  function FinishBhs(b: BhPart): BhPart {
    var b1 := b.(walking := Pred(b.walking));
    if b1.walking == 0
    then b1.(list := Sweep(b.list, b.bhs), freed := b.freed + (Elems(b.list) - Elems(Sweep(b.list, b.bhs))))
    else b1
  }

  function BhOp(b: BhPart, step: Step): BhPart
    requires (step.NewBh? && step.id !in b.bhs) ||
             ((step.ScheduleBh? || step.CancelBh? || step.DeleteBh?) && Usable(b, step.id))
  {
    match step
    case NewBh(id) => b.(list := [id] + b.list, bhs := b.bhs[id := Bh(false, false)])
    case ScheduleBh(id) =>
      b.(bhs := b.bhs[id := Bh(true, false)], schedules := b.schedules[id := Count(b.schedules, id) + 1])
    case CancelBh(id) => b.(bhs := b.bhs[id := Bh(false, false)])
    case DeleteBh(id) => b.(bhs := b.bhs[id := Bh(false, true)], dropped := b.dropped + {id})
  }

  function Apply(s: State, step: Step): State
    requires Enabled(s, step)
  {
    match step
    case SetFdHandler(fd, install, id) => s.(h := SetHandler(s.h, fd, install, id))
    case BeginPoll =>
      State(s.b, s.h.(walking := s.h.walking + 1), s.frames + [PollWait(LiveNodes(s.h.list, s.h.handlers))])
    case PollReturns(i) =>
      State(s.b.(walking := s.b.walking + 1), s.h.(walking := Pred(s.h.walking)), s.frames[i := BhAt(First(s.b.list))])
    case BhStep(i) =>
      (match s.frames[i].bh
       case Some(id) =>
         var next := NextOf(s.b.list, id);
         if Due(s.b, id) then State(TakeBh(s.b, id), s.h, s.frames[i := BhCall(next)])
         else s.(frames := s.frames[i := BhAt(next)])
       case None => State(FinishBhs(s.b), s.h, s.frames[i := HAt(First(s.h.list))]))
    case BhReturns(i) => s.(frames := s.frames[i := BhAt(s.frames[i].next)])
    case HStep(i, readReady, writeReady) =>
      (match s.frames[i].node
       case None => s.(frames := s.frames[i := Done])
       case Some(n) =>
         var h1 := s.h.(walking := s.h.walking + 1);
         var live := n in s.h.handlers && !s.h.handlers[n].deleted;
         if live && readReady then State(s.b, h1, s.frames[i := HRead(n, writeReady)])
         else if live && writeReady then State(s.b, h1, s.frames[i := HWrite(n)])
         else State(s.b, FinishHandler(h1, n), s.frames[i := HAt(NextOf(s.h.list, n))]))
    case HReturns(i) =>
      var f := s.frames[i];
      if f.HRead? && f.writeReady && f.n in s.h.handlers && !s.h.handlers[f.n].deleted
      then s.(frames := s.frames[i := HWrite(f.n)])
      else State(s.b, FinishHandler(s.h, f.n), s.frames[i := HAt(NextOf(s.h.list, f.n))])
    case _ => s.(b := BhOp(s.b, step))
  }

  ghost predicate Next(s: State, s': State) {
    exists step :: Enabled(s, step) && s' == Apply(s, step)
  }

  ghost predicate Init(s: State) {
    && s.b == BhPart([], map[], 0, {}, {}, map[], map[])
    && s.h == HPart([], map[], 0, {}, {})
    && s.frames == []
  }

  /** The bottom halves an aio_poll call will still look at. */
  function BhPointers(f: Frame): set<Id> {
    match f
    case BhAt(Some(b)) => {b}
    case BhCall(Some(b)) => {b}
    case _ => {}
  }

  /** The handlers an aio_poll call will still look at. */
  function HandlerPointers(f: Frame): set<Id> {
    match f
    case PollWait(nodes) => Elems(nodes)
    case HAt(Some(n)) => {n}
    case HRead(n, _) => {n}
    case HWrite(n) => {n}
    case _ => {}
  }

  predicate WalksBh(f: Frame) {
    f.BhAt? || f.BhCall?
  }

  predicate WalksHandlers(f: Frame) {
    f.PollWait? || f.HRead? || f.HWrite?
  }

  function Walkers(frames: seq<Frame>, p: Frame -> bool): nat {
    if frames == [] then 0 else Bit(p(frames[0])) + Walkers(frames[1..], p)
  }

  function Bit(b: bool): nat {
    if b then 1 else 0
  }

  predicate NoDup(list: seq<Id>) {
    forall i, j :: 0 <= i < j < |list| ==> list[i] != list[j]
  }

  ghost predicate OneActive(frames: seq<Frame>) {
    forall i, j :: 0 <= i < j < |frames| ==> !(Active(frames[i]) && Active(frames[j]))
  }

  /** Every run of a bottom half uses up a schedule call. */
  ghost predicate RunsBounded(b: BhPart) {
    && (forall x :: x in b.bhs ==> Count(b.runs, x) + Bit(b.bhs[x].scheduled) <= Count(b.schedules, x))
    && (forall x :: x in b.runs || x in b.schedules ==> x in b.bhs)
  }

  ghost predicate BhListOk(b: BhPart) {
    && NoDup(b.list)
    && (forall x :: x in b.list ==> x in b.bhs && x !in b.freed)
    && b.freed <= b.dropped && (forall x :: x in b.freed ==> x in b.bhs)
    && (forall x :: x in b.list && b.bhs[x].deleted ==> x in b.dropped)
  }

  /** Every bottom half a walker will look at is still on the list. */
  ghost predicate BhPointersOk(frames: seq<Frame>, list: seq<Id>) {
    forall i :: 0 <= i < |frames| ==> BhPointers(frames[i]) <= Elems(list)
  }

  ghost predicate BhInv(b: BhPart, frames: seq<Frame>) {
    && BhListOk(b) && RunsBounded(b) && BhPointersOk(frames, b.list)
    && b.walking == Walkers(frames, WalksBh)
  }

  ghost predicate HListOk(h: HPart) {
    && NoDup(h.list)
    && (forall x :: x in h.list ==> x in h.handlers && x !in h.freed)
    && h.freed <= h.dropped && (forall x :: x in h.freed ==> x in h.handlers)
    && (forall x :: x in h.list && h.handlers[x].deleted ==> x in h.dropped)
  }

  predicate LiveHandler(h: HPart, x: Id) {
    x in h.list && x in h.handlers && !h.handlers[x].deleted
  }

  /** At most one live handler per file descriptor. */
  ghost predicate FdsUnique(h: HPart) {
    forall x, y :: LiveHandler(h, x) && LiveHandler(h, y) && h.handlers[x].fd == h.handlers[y].fd ==> x == y
  }

  ghost predicate HPointersOk(frames: seq<Frame>, list: seq<Id>) {
    forall i :: 0 <= i < |frames| ==> HandlerPointers(frames[i]) <= Elems(list)
  }

  ghost predicate HInv(h: HPart, frames: seq<Frame>) {
    && HListOk(h) && FdsUnique(h) && HPointersOk(frames, h.list)
    && h.walking == Walkers(frames, WalksHandlers)
  }

  ghost predicate Inv(s: State) {
    BhInv(s.b, s.frames) && HInv(s.h, s.frames) && OneActive(s.frames)
  }

  // Lists

  lemma {:induction false} NextOfIn(list: seq<Id>, x: Id)
    requires NoDup(list)
    ensures NextOf(list, x).Some? ==> NextOf(list, x).value in list && NextOf(list, x).value != x
  {
    if list != [] && list[0] != x {
      assert NoDup(list[1..]);
      NextOfIn(list[1..], x);
    }
  }

  /** The next entry is the one at the next place. */
  lemma {:induction false} NextOfAt(list: seq<Id>, i: nat)
    requires NoDup(list) && i < |list|
    ensures NextOf(list, list[i]) == if i + 1 < |list| then Some(list[i + 1]) else None
  {
    if i > 0 {
      assert list[0] != list[i];
      NextOfAt(list[1..], i - 1);
    }
  }

  /** Entry `y` stands before `x` on the list, or is `x`. */
  ghost predicate Ordered(list: seq<Id>, y: Id, x: Id) {
    exists p, q :: 0 <= p <= q < |list| && list[p] == y && list[q] == x
  }

  lemma OrderedTail(list: seq<Id>, y: Id, x: Id)
    requires NoDup(list) && list != []
    ensures Ordered(list, y, x) <==> (list[0] == y && x in list) || Ordered(list[1..], y, x)
  {
    if p, q :| 0 <= p <= q < |list| && list[p] == y && list[q] == x {
      if p > 0 {
        assert list[1..][p - 1] == y && list[1..][q - 1] == x;
      }
    }
    if list[0] == y && x in list {
      var q :| 0 <= q < |list| && list[q] == x;
      assert list[0] == y && list[q] == x;
    }
    if p, q :| 0 <= p <= q < |list[1..]| && list[1..][p] == y && list[1..][q] == x {
      assert list[p + 1] == y && list[q + 1] == x;
    }
  }

  lemma OrderedPrepend(list: seq<Id>, id: Id, y: Id, x: Id)
    requires Ordered(list, y, x)
    ensures Ordered([id] + list, y, x)
  {
    var p, q :| 0 <= p <= q < |list| && list[p] == y && list[q] == x;
    assert ([id] + list)[p + 1] == y && ([id] + list)[q + 1] == x;
  }

  /** Stepping on from an entry before `x`. */
  lemma OrderedNext(list: seq<Id>, y: Id, x: Id)
    requires NoDup(list) && Ordered(list, y, x) && y != x
    ensures NextOf(list, y).Some? && Ordered(list, NextOf(list, y).value, x) && NextOf(list, y).value != y
  {
    var p, q :| 0 <= p <= q < |list| && list[p] == y && list[q] == x;
    NextOfAt(list, p);
    assert list[p + 1] == NextOf(list, y).value;
  }

  /** Removing an entry keeps the order of the others. */
  lemma {:induction false} RemoveOrder(list: seq<Id>, n: Id, y: Id, x: Id)
    requires NoDup(list) && y != n && x != n
    ensures Ordered(Remove(list, n), y, x) <==> Ordered(list, y, x)
  {
    if list != [] {
      OrderedTail(list, y, x);
      RemoveElems(list, n);
      if list[0] != n {
        var r := Remove(list, n);
        assert NoDup(list[1..]) && r[1..] == Remove(list[1..], n);
        OrderedTail(r, y, x);
        RemoveOrder(list[1..], n, y, x);
      }
    }
  }

  /** The sweep keeps the order of what it keeps. */
  lemma {:induction false} SweepOrder(list: seq<Id>, bhs: map<Id, Bh>, y: Id, x: Id)
    requires NoDup(list) && !(y in bhs && bhs[y].deleted) && !(x in bhs && bhs[x].deleted)
    ensures Ordered(Sweep(list, bhs), y, x) <==> Ordered(list, y, x)
  {
    if list != [] {
      OrderedTail(list, y, x);
      SweepElems(list, bhs);
      SweepOrder(list[1..], bhs, y, x);
      if !(list[0] in bhs && bhs[list[0]].deleted) {
        var r := Sweep(list, bhs);
        assert r[1..] == Sweep(list[1..], bhs);
        OrderedTail(r, y, x);
      }
    }
  }

  lemma {:induction false} RemoveElems(list: seq<Id>, x: Id)
    requires NoDup(list)
    ensures forall y :: y in Remove(list, x) <==> y in list && y != x
    ensures NoDup(Remove(list, x))
  {
    if list != [] {
      assert list == [list[0]] + list[1..];
      assert NoDup(list[1..]);
      RemoveElems(list[1..], x);
      assert list[0] !in list[1..];
    }
  }

  lemma {:induction false} SweepElems(list: seq<Id>, bhs: map<Id, Bh>)
    requires NoDup(list)
    ensures forall y :: y in Sweep(list, bhs) <==> y in list && !(y in bhs && bhs[y].deleted)
    ensures NoDup(Sweep(list, bhs))
  {
    if list != [] {
      assert list == [list[0]] + list[1..];
      assert NoDup(list[1..]);
      SweepElems(list[1..], bhs);
      assert list[0] !in list[1..];
    }
  }

  lemma {:induction false} FindHandlerSpec(list: seq<Id>, handlers: map<Id, Handler>, fd: int)
    ensures match FindHandler(list, handlers, fd)
            case Some(n) => n in list && n in handlers && handlers[n] == Handler(fd, false)
            case None => forall x :: x in list && x in handlers && !handlers[x].deleted ==> handlers[x].fd != fd
  {
    if list != [] {
      assert list == [list[0]] + list[1..];
      FindHandlerSpec(list[1..], handlers, fd);
    }
  }

  /** aio_poll waits for exactly the live handlers. */
  lemma {:induction false} LiveNodesIn(list: seq<Id>, handlers: map<Id, Handler>)
    ensures forall y :: y in LiveNodes(list, handlers) <==> y in list && y in handlers && !handlers[y].deleted
  {
    if list != [] {
      assert list == [list[0]] + list[1..];
      LiveNodesIn(list[1..], handlers);
    }
  }

  /** find_aio_handler: the live handler of `fd`, if there is one. */
  method FindAioHandler(list: seq<Id>, handlers: map<Id, Handler>, fd: int) returns (node: Option<Id>)
    ensures node == FindHandler(list, handlers, fd)
    ensures node.None? ==> forall x :: x in list && x in handlers && !handlers[x].deleted ==> handlers[x].fd != fd
  {
    for i := 0 to |list|
      invariant FindHandler(list, handlers, fd) == FindHandler(list[i..], handlers, fd)
    {
      assert list[i..][1..] == list[i + 1..];
      if list[i] in handlers && handlers[list[i]].fd == fd && !handlers[list[i]].deleted {
        FindHandlerSpec(list, handlers, fd);
        return Some(list[i]);
      }
    }
    FindHandlerSpec(list, handlers, fd);
    return None;
  }

  /** The removal loop of aio_bh_poll: exactly the deleted bottom halves leave the list
      and are freed; the others keep their order. */
  method RemoveDeleted(list: seq<Id>, bhs: map<Id, Bh>) returns (kept: seq<Id>, freed: set<Id>)
    requires NoDup(list)
    ensures kept == Sweep(list, bhs)
    ensures freed == Elems(list) - Elems(kept)
  {
    kept, freed := [], {};
    for i := 0 to |list|
      invariant kept + Sweep(list[i..], bhs) == Sweep(list, bhs)
      invariant forall y :: y in freed <==> y in list[..i] && y in bhs && bhs[y].deleted
    {
      assert list[i..][1..] == list[i + 1..];
      assert list[..i + 1] == list[..i] + [list[i]];
      if list[i] in bhs && bhs[list[i]].deleted {
        freed := freed + {list[i]};
      } else {
        kept := kept + [list[i]];
      }
    }
    assert list[..|list|] == list;
    SweepElems(list, bhs);
  }

  // Counting walkers

  lemma {:induction false} WalkersUpdate(frames: seq<Frame>, i: nat, f: Frame, p: Frame -> bool)
    requires i < |frames|
    ensures Walkers(frames[i := f], p) + Bit(p(frames[i])) == Walkers(frames, p) + Bit(p(f))
  {
    if i == 0 {
      assert frames[0 := f][1..] == frames[1..];
    } else {
      assert frames[i := f][1..] == frames[1..][i - 1 := f];
      WalkersUpdate(frames[1..], i - 1, f, p);
    }
  }

  lemma {:induction false} WalkersAppend(frames: seq<Frame>, f: Frame, p: Frame -> bool)
    ensures Walkers(frames + [f], p) == Walkers(frames, p) + Bit(p(f))
  {
    if frames == [] {
      assert frames + [f] == [f];
    } else {
      assert (frames + [f])[1..] == frames[1..] + [f];
      WalkersAppend(frames[1..], f, p);
    }
  }

  lemma {:induction false} WalkersAt(frames: seq<Frame>, i: nat, p: Frame -> bool)
    requires i < |frames| && p(frames[i])
    ensures Walkers(frames, p) > 0
  {
    if i > 0 {
      WalkersAt(frames[1..], i - 1, p);
    }
  }

  lemma NoWalkers(frames: seq<Frame>, p: Frame -> bool)
    requires Walkers(frames, p) == 0
    ensures forall i :: 0 <= i < |frames| ==> !p(frames[i])
  {
  }

  // Bottom halves

  lemma BhOpInv(b: BhPart, frames: seq<Frame>, step: Step)
    requires BhInv(b, frames)
    requires (step.NewBh? && step.id !in b.bhs) ||
             ((step.ScheduleBh? || step.CancelBh? || step.DeleteBh?) && Usable(b, step.id))
    ensures BhInv(BhOp(b, step), frames)
  {
  }

  /** Moving frame `i` on, with the counter following it. */
  lemma BhMove(b: BhPart, frames: seq<Frame>, i: nat, f: Frame, walking: nat)
    requires BhInv(b, frames) && i < |frames|
    requires BhPointers(f) <= Elems(b.list)
    requires walking + Bit(WalksBh(frames[i])) == b.walking + Bit(WalksBh(f))
    ensures BhInv(b.(walking := walking), frames[i := f])
  {
    WalkersUpdate(frames, i, f, WalksBh);
  }

  lemma TakeBhInv(b: BhPart, frames: seq<Frame>, id: Id)
    requires BhInv(b, frames) && Due(b, id)
    ensures BhInv(TakeBh(b, id), frames)
  {
  }

  lemma FinishBhsInv(b: BhPart, frames: seq<Frame>, i: nat, f: Frame)
    requires BhInv(b, frames) && i < |frames| && frames[i] == BhAt(None) && f.HAt?
    ensures BhInv(FinishBhs(b), frames[i := f])
  {
    WalkersAt(frames, i, WalksBh);
    var b1, frames' := b.(walking := b.walking - 1), frames[i := f];
    BhMove(b, frames, i, f, b.walking - 1);
    if b1.walking == 0 {
      NoWalkers(frames', WalksBh);
      SweepElems(b.list, b.bhs);
      assert BhPointersOk(frames', Sweep(b.list, b.bhs));
      assert BhListOk(FinishBhs(b));
    }
  }

  // Handlers

  lemma SetHandlerInv(h: HPart, frames: seq<Frame>, fd: int, install: bool, id: Id)
    requires HInv(h, frames) && Quiet(frames) && id !in h.handlers
    ensures HInv(SetHandler(h, fd, install, id), frames)
  {
    FindHandlerSpec(h.list, h.handlers, fd);
    var node, h' := FindHandler(h.list, h.handlers, fd), SetHandler(h, fd, install, id);
    if node.Some? && !install && h.walking == 0 {
      NoWalkers(frames, WalksHandlers);
      RemoveElems(h.list, node.value);
      assert HPointersOk(frames, h'.list);
    } else {
      assert Elems(h.list) <= Elems(h'.list);
      HPointersKept(frames, h.list, h'.list);
    }
    assert HListOk(h');
    forall x, y | LiveHandler(h', x) && LiveHandler(h', y) && h'.handlers[x].fd == h'.handlers[y].fd ensures x == y {
      assert (x == id && install && node.None?) || LiveHandler(h, x);
      assert (y == id && install && node.None?) || LiveHandler(h, y);
    }
  }

  lemma HPointersKept(frames: seq<Frame>, list: seq<Id>, list': seq<Id>)
    requires HPointersOk(frames, list) && Elems(list) <= Elems(list')
    ensures HPointersOk(frames, list')
  {
  }

  lemma HMove(h: HPart, frames: seq<Frame>, i: nat, f: Frame, walking: nat)
    requires HInv(h, frames) && i < |frames|
    requires HandlerPointers(f) <= Elems(h.list)
    requires walking + Bit(WalksHandlers(frames[i])) == h.walking + Bit(WalksHandlers(f))
    ensures HInv(h.(walking := walking), frames[i := f])
  {
    WalkersUpdate(frames, i, f, WalksHandlers);
    assert FdsUnique(h.(walking := walking)) by { FdsSame(h, h.(walking := walking)); }
  }

  lemma FdsSame(h: HPart, h': HPart)
    requires FdsUnique(h) && h'.handlers == h.handlers && (forall x :: x in h'.list ==> x in h.list)
    ensures FdsUnique(h')
  {
  }

  /** Leaving node `n`, with no other call between callbacks: if the node is freed, no
      other walker holds a pointer to any handler. */
  lemma FinishHandlerInv(h: HPart, frames: seq<Frame>, i: nat, n: Id)
    requires HInv(h, frames) && i < |frames| && n in h.list && (frames[i].HRead? || frames[i].HWrite?)
    requires forall j :: 0 <= j < |frames| && j != i ==> !Active(frames[j])
    ensures HInv(FinishHandler(h, n), frames[i := HAt(NextOf(h.list, n))])
  {
    var next, h' := NextOf(h.list, n), FinishHandler(h, n);
    var frames' := frames[i := HAt(next)];
    WalkersAt(frames, i, WalksHandlers);
    NextOfIn(h.list, n);
    HMove(h, frames, i, HAt(next), h.walking - 1);
    if h.walking == 1 && h.handlers[n].deleted {
      NoWalkers(frames', WalksHandlers);
      RemoveElems(h.list, n);
      FdsSame(h, h');
      forall j | 0 <= j < |frames'| ensures HandlerPointers(frames'[j]) <= Elems(h'.list) {
        assert j != i ==> HandlerPointers(frames'[j]) == {};
      }
      assert HListOk(h');
    }
  }

  // Steps

  lemma ActiveMove(frames: seq<Frame>, i: nat, f: Frame)
    requires OneActive(frames) && i < |frames|
    requires Active(f) ==> forall j :: 0 <= j < |frames| && j != i ==> !Active(frames[j])
    ensures OneActive(frames[i := f])
  {
  }

  lemma BeginPollInv(s: State)
    requires Inv(s) && Quiet(s.frames)
    ensures Inv(Apply(s, BeginPoll))
  {
    var f, s' := PollWait(LiveNodes(s.h.list, s.h.handlers)), Apply(s, BeginPoll);
    LiveNodesIn(s.h.list, s.h.handlers);
    WalkersAppend(s.frames, f, WalksBh);
    WalkersAppend(s.frames, f, WalksHandlers);
    FdsSame(s.h, s'.h);
  }

  lemma PollReturnsInv(s: State, i: nat)
    requires Inv(s) && Enabled(s, PollReturns(i))
    ensures Inv(Apply(s, PollReturns(i)))
  {
    WalkersAt(s.frames, i, WalksHandlers);
    BhMove(s.b, s.frames, i, BhAt(First(s.b.list)), s.b.walking + 1);
    HMove(s.h, s.frames, i, BhAt(First(s.b.list)), s.h.walking - 1);
    ActiveMove(s.frames, i, BhAt(First(s.b.list)));
  }

  lemma BhReturnsInv(s: State, i: nat)
    requires Inv(s) && Enabled(s, BhReturns(i))
    ensures Inv(Apply(s, BhReturns(i)))
  {
    var f := BhAt(s.frames[i].next);
    assert BhPointers(f) == BhPointers(s.frames[i]);
    BhMove(s.b, s.frames, i, f, s.b.walking);
    HMove(s.h, s.frames, i, f, s.h.walking);
    ActiveMove(s.frames, i, f);
  }

  lemma BhStepInv(s: State, i: nat)
    requires Inv(s) && Enabled(s, BhStep(i))
    ensures Inv(Apply(s, BhStep(i)))
  {
    var s' := Apply(s, BhStep(i));
    var f := s'.frames[i];
    match s.frames[i].bh {
      case Some(id) =>
        NextOfIn(s.b.list, id);
        BhMove(s.b, s.frames, i, f, s.b.walking);
        if Due(s.b, id) {
          TakeBhInv(s.b, s'.frames, id);
        }
      case None => FinishBhsInv(s.b, s.frames, i, f);
    }
    HMove(s.h, s.frames, i, f, s.h.walking);
    ActiveMove(s.frames, i, f);
  }

  /** The handler walk at node `n`. */
  lemma HTurnInv(s: State, step: Step, n: Id)
    requires Inv(s) && Enabled(s, step) && step.HStep? && s.frames[step.i] == HAt(Some(n))
    ensures HInv(Apply(s, step).h, Apply(s, step).frames)
  {
    var s', i := Apply(s, step), step.i;
    assert n in HandlerPointers(s.frames[i]);
    var f := if s'.frames[i].HAt? then HWrite(n) else s'.frames[i];
    HMove(s.h, s.frames, i, f, s.h.walking + 1);
    if s'.frames[i].HAt? {
      FinishHandlerInv(s.h.(walking := s.h.walking + 1), s.frames[i := f], i, n);
      assert s.frames[i := f][i := s'.frames[i]] == s'.frames;
    }
  }

  lemma HStepInv(s: State, step: Step)
    requires Inv(s) && Enabled(s, step) && step.HStep?
    ensures Inv(Apply(s, step))
  {
    var s', i := Apply(s, step), step.i;
    BhMove(s.b, s.frames, i, s'.frames[i], s.b.walking);
    ActiveMove(s.frames, i, s'.frames[i]);
    match s.frames[i].node {
      case None => HMove(s.h, s.frames, i, Done, s.h.walking);
      case Some(n) => HTurnInv(s, step, n);
    }
  }

  lemma HReturnsInv(s: State, i: nat)
    requires Inv(s) && Enabled(s, HReturns(i))
    ensures Inv(Apply(s, HReturns(i)))
  {
    var s', f := Apply(s, HReturns(i)), s.frames[i];
    assert f.n in HandlerPointers(f);
    BhMove(s.b, s.frames, i, s'.frames[i], s.b.walking);
    if s'.frames[i].HWrite? {
      HMove(s.h, s.frames, i, HWrite(f.n), s.h.walking);
    } else {
      FinishHandlerInv(s.h, s.frames, i, f.n);
    }
    ActiveMove(s.frames, i, s'.frames[i]);
  }

  lemma NextInv(s: State, step: Step)
    requires Inv(s) && Enabled(s, step)
    ensures Inv(Apply(s, step))
  {
    match step {
      case SetFdHandler(fd, install, id) => SetHandlerInv(s.h, s.frames, fd, install, id);
      case BeginPoll => BeginPollInv(s);
      case PollReturns(i) => PollReturnsInv(s, i);
      case BhStep(i) => BhStepInv(s, i);
      case BhReturns(i) => BhReturnsInv(s, i);
      case HStep(_, _, _) => HStepInv(s, step);
      case HReturns(i) => HReturnsInv(s, i);
      case _ => BhOpInv(s.b, s.frames, step);
    }
  }

  ghost predicate Run(run: seq<State>) {
    && |run| > 0 && Init(run[0])
    && forall k :: 0 < k < |run| ==> Next(run[k - 1], run[k])
  }

  lemma {:induction false} RunInv(run: seq<State>, k: nat)
    requires Run(run) && k < |run|
    ensures Inv(run[k])
  {
    if k > 0 {
      RunInv(run, k - 1);
      assert Next(run[k - 1], run[k]);
      var step :| Enabled(run[k - 1], step) && run[k] == Apply(run[k - 1], step);
      NextInv(run[k - 1], step);
    }
  }

  /** Under any nesting of polls and any callbacks: every entry a walker will still look
      at has not been freed, only entries somebody deleted are freed, there is at most one
      live handler per descriptor, and runs never outnumber schedule calls. */
  lemma ListSafety(run: seq<State>, k: nat)
    requires Run(run) && k < |run|
    ensures forall i :: 0 <= i < |run[k].frames| ==>
              BhPointers(run[k].frames[i]) !! run[k].b.freed && HandlerPointers(run[k].frames[i]) !! run[k].h.freed
    ensures run[k].b.freed <= run[k].b.dropped && run[k].h.freed <= run[k].h.dropped
    ensures FdsUnique(run[k].h)
    ensures forall x :: Count(run[k].b.runs, x) <= Count(run[k].b.schedules, x)
  {
    RunInv(run, k);
    var s := run[k];
    forall i | 0 <= i < |s.frames|
      ensures BhPointers(s.frames[i]) !! s.b.freed && HandlerPointers(s.frames[i]) !! s.h.freed
    {
      assert BhPointers(s.frames[i]) <= Elems(s.b.list) && HandlerPointers(s.frames[i]) <= Elems(s.h.list);
    }
    forall x ensures Count(s.b.runs, x) <= Count(s.b.schedules, x) {
      assert x in s.b.bhs || (x !in s.b.runs && x !in s.b.schedules);
    }
  }

  // Walks are complete

  /** Frame `i` walks the bottom halves and has `x` still before it. */
  ghost predicate BhAhead(s: State, i: nat, x: Id) {
    && i < |s.frames|
    && match s.frames[i]
       case BhAt(Some(y)) => Ordered(s.b.list, y, x)
       case BhCall(Some(y)) => Ordered(s.b.list, y, x)
       case _ => false
  }

  lemma {:induction false} WalkersTwo(frames: seq<Frame>, i: nat, j: nat, p: Frame -> bool)
    requires i < j < |frames| && p(frames[i]) && p(frames[j])
    ensures Walkers(frames, p) >= 2
  {
    if i == 0 {
      WalkersAt(frames[1..], j - 1, p);
    } else {
      WalkersTwo(frames[1..], i - 1, j - 1, p);
    }
  }

  /** While frame `i` walks the bottom halves, none leaves the list. */
  lemma BhListKept(s: State, step: Step, i: nat)
    requires Inv(s) && Enabled(s, step) && i < |s.frames| && WalksBh(s.frames[i])
    requires step != BhStep(i)
    ensures var s' := Apply(s, step); s'.b.list == s.b.list || exists id :: s'.b.list == [id] + s.b.list
    ensures step.BhReturns? || Apply(s, step).frames[i] == s.frames[i]
  {
    if step.BhStep? && s.frames[step.i] == BhAt(None) {
      var j := step.i;
      WalkersTwo(s.frames, if i < j then i else j, if i < j then j else i, WalksBh);
    }
  }

  lemma BhAheadKept(s: State, step: Step, i: nat, x: Id)
    requires Inv(s) && Enabled(s, step) && BhAhead(s, i, x)
    requires step != BhStep(i) || s.frames[i] != BhAt(Some(x))
    ensures BhAhead(Apply(s, step), i, x)
  {
    var s' := Apply(s, step);
    if step == BhStep(i) {
      OrderedNext(s.b.list, s.frames[i].bh.value, x);
    } else {
      BhListKept(s, step, i);
      var y := if s.frames[i].BhAt? then s.frames[i].bh.value else s.frames[i].next.value;
      if s'.b.list != s.b.list {
        var id :| s'.b.list == [id] + s.b.list;
        OrderedPrepend(s.b.list, id, y, x);
      }
    }
  }

  /** At state `k` frame `i` looks at bottom half `x`. */
  ghost predicate LooksBh(run: seq<State>, i: nat, x: Id, k: nat) {
    && k + 1 < |run| && i < |run[k].frames| && run[k].frames[i] == BhAt(Some(x))
    && run[k + 1] == Apply(run[k], BhStep(i))
  }

  ghost predicate LookedBh(run: seq<State>, i: nat, x: Id, a: nat, z: nat) {
    exists k :: a <= k < z && LooksBh(run, i, x, k)
  }

  lemma {:induction false} BhWalk(run: seq<State>, i: nat, x: Id, a: nat, z: nat)
    requires Run(run) && a <= z < |run| && BhAhead(run[a], i, x)
    ensures LookedBh(run, i, x, a, z) || BhAhead(run[z], i, x)
    decreases z
  {
    if a < z {
      BhWalk(run, i, x, a, z - 1);
      if LookedBh(run, i, x, a, z - 1) {
        var k :| a <= k < z - 1 && LooksBh(run, i, x, k);
        assert LooksBh(run, i, x, k);
      } else {
        RunInv(run, z - 1);
        assert Next(run[z - 1], run[z]);
        var step :| Enabled(run[z - 1], step) && run[z] == Apply(run[z - 1], step);
        if step == BhStep(i) && run[z - 1].frames[i] == BhAt(Some(x)) {
          assert LooksBh(run, i, x, z - 1);
        } else {
          BhAheadKept(run[z - 1], step, i, x);
        }
      }
    }
  }

  /** A walk over the bottom halves looks at every one that was on the list when it began, and
      runs it exactly if it is scheduled then and not deleted. */
  lemma BhWalkComplete(run: seq<State>, i: nat, x: Id, a: nat, z: nat) returns (k: nat)
    requires Run(run) && a <= z < |run| && i < |run[a].frames| && i < |run[z].frames|
    requires run[a].frames[i] == BhAt(First(run[a].b.list)) && x in run[a].b.list
    requires run[z].frames[i] == BhAt(None)
    ensures a <= k < z && LooksBh(run, i, x, k)
    ensures Count(run[k + 1].b.runs, x) == Count(run[k].b.runs, x) + Bit(Due(run[k].b, x))
  {
    FirstAhead(run[a].b.list, x);
    BhWalk(run, i, x, a, z);
    k :| a <= k < z && LooksBh(run, i, x, k);
    BhLook(run[k], i, x);
  }

  lemma FirstAhead(list: seq<Id>, x: Id)
    requires x in list
    ensures Ordered(list, list[0], x)
  {
    var q :| 0 <= q < |list| && list[q] == x;
    assert list[0] == list[0] && list[q] == x;
  }

  lemma BhLook(s: State, i: nat, x: Id)
    requires i < |s.frames| && s.frames[i] == BhAt(Some(x))
    ensures Count(Apply(s, BhStep(i)).b.runs, x) == Count(s.b.runs, x) + Bit(Due(s.b, x))
  {
  }

  /** When the only walker is through, no deleted bottom half is left on the list, and those that
      were have been freed. */
  lemma BhsSwept(s: State, i: nat, x: Id)
    requires Inv(s) && i < |s.frames| && s.frames[i] == BhAt(None) && s.b.walking == 1
    requires x in s.b.list
    ensures var b := Apply(s, BhStep(i)).b;
            if s.b.bhs[x].deleted then x !in b.list && x in b.freed else x in b.list && x !in b.freed
  {
    SweepElems(s.b.list, s.b.bhs);
  }

  /** Frame `i` walks the handlers and has `x` still before it. */
  ghost predicate HAhead(s: State, i: nat, x: Id) {
    && i < |s.frames|
    && match s.frames[i]
       case HAt(Some(y)) => Ordered(s.h.list, y, x)
       case HRead(n, _) => n != x && Ordered(s.h.list, n, x)
       case HWrite(n) => n != x && Ordered(s.h.list, n, x)
       case _ => false
  }

  /** What other steps than those of frame `i` do to the handlers while it walks. */
  lemma HListKept(s: State, step: Step, i: nat)
    requires Inv(s) && Enabled(s, step) && i < |s.frames|
    requires s.frames[i].HAt? || s.frames[i].HRead? || s.frames[i].HWrite?
    requires !(step.HStep? && step.i == i) && step != HReturns(i)
    ensures var s' := Apply(s, step); s'.h.list == s.h.list || exists id :: s'.h.list == [id] + s.h.list
    ensures Apply(s, step).frames[i] == s.frames[i]
  {
    if WalksHandlers(s.frames[i]) {
      WalkersAt(s.frames, i, WalksHandlers);
      if step.HReturns? {
        var j := step.i;
        WalkersTwo(s.frames, if i < j then i else j, if i < j then j else i, WalksHandlers);
      }
    }
  }

  /** Frame `i` leaves node `n`, which stands before `x`. */
  lemma HLeaves(h: HPart, n: Id, x: Id)
    requires NoDup(h.list) && Ordered(h.list, n, x) && n != x
    ensures NextOf(h.list, n).Some? && Ordered(FinishHandler(h, n).list, NextOf(h.list, n).value, x)
  {
    OrderedNext(h.list, n, x);
    RemoveOrder(h.list, n, NextOf(h.list, n).value, x);
  }

  lemma HAheadKept(s: State, step: Step, i: nat, x: Id)
    requires Inv(s) && Enabled(s, step) && HAhead(s, i, x)
    requires !(step.HStep? && step.i == i) || s.frames[i] != HAt(Some(x))
    ensures HAhead(Apply(s, step), i, x)
  {
    var s' := Apply(s, step);
    if step.HStep? && step.i == i {
      HLeaves(s.h.(walking := s.h.walking + 1), s.frames[i].node.value, x);
    } else if step == HReturns(i) {
      HLeaves(s.h, s.frames[i].n, x);
    } else {
      HListKept(s, step, i);
      if s'.h.list != s.h.list {
        var id :| s'.h.list == [id] + s.h.list;
        var y := if s.frames[i].HAt? then s.frames[i].node.value else s.frames[i].n;
        OrderedPrepend(s.h.list, id, y, x);
      }
    }
  }

  /** At state `k` frame `i` looks at handler `x`, of which poll() said what is ready. */
  ghost predicate LooksH(run: seq<State>, i: nat, x: Id, k: nat, readReady: bool, writeReady: bool) {
    && k + 1 < |run| && i < |run[k].frames| && run[k].frames[i] == HAt(Some(x))
    && run[k + 1] == Apply(run[k], HStep(i, readReady, writeReady))
  }

  ghost predicate LookedH(run: seq<State>, i: nat, x: Id, a: nat, z: nat) {
    exists k, r, w :: a <= k < z && LooksH(run, i, x, k, r, w)
  }

  lemma {:induction false} HWalk(run: seq<State>, i: nat, x: Id, a: nat, z: nat)
    requires Run(run) && a <= z < |run| && HAhead(run[a], i, x)
    ensures LookedH(run, i, x, a, z) || HAhead(run[z], i, x)
    decreases z
  {
    if a < z {
      HWalk(run, i, x, a, z - 1);
      if LookedH(run, i, x, a, z - 1) {
        var k, r, w :| a <= k < z - 1 && LooksH(run, i, x, k, r, w);
        assert LooksH(run, i, x, k, r, w);
      } else {
        RunInv(run, z - 1);
        assert Next(run[z - 1], run[z]);
        var step :| Enabled(run[z - 1], step) && run[z] == Apply(run[z - 1], step);
        if step.HStep? && step.i == i && run[z - 1].frames[i] == HAt(Some(x)) {
          assert LooksH(run, i, x, z - 1, step.readReady, step.writeReady);
        } else {
          HAheadKept(run[z - 1], step, i, x);
        }
      }
    }
  }

  /** A walk over the handlers looks at every one that was on the list when it began: a live one
      is called if it is ready, and a deleted one is freed if nobody else walks. */
  lemma HWalkComplete(run: seq<State>, i: nat, x: Id, a: nat, z: nat) returns (k: nat, r: bool, w: bool)
    requires Run(run) && a <= z < |run| && i < |run[a].frames| && i < |run[z].frames|
    requires run[a].frames[i] == HAt(First(run[a].h.list)) && x in run[a].h.list
    requires run[z].frames[i] == HAt(None)
    ensures a <= k < z && LooksH(run, i, x, k, r, w)
    ensures LiveHandler(run[k].h, x) && r ==> run[k + 1].frames[i] == HRead(x, w)
    ensures LiveHandler(run[k].h, x) && !r && w ==> run[k + 1].frames[i] == HWrite(x)
    ensures !LiveHandler(run[k].h, x) && run[k].h.walking == 0 ==>
              x in run[k + 1].h.freed && x !in run[k + 1].h.list
  {
    FirstAhead(run[a].h.list, x);
    HWalk(run, i, x, a, z);
    k, r, w :| a <= k < z && LooksH(run, i, x, k, r, w);
    RunInv(run, k);
    HLook(run[k], i, x, r, w);
  }

  lemma HLook(s: State, i: nat, x: Id, r: bool, w: bool)
    requires Inv(s) && i < |s.frames| && s.frames[i] == HAt(Some(x))
    ensures var s' := Apply(s, HStep(i, r, w));
            && (LiveHandler(s.h, x) && r ==> s'.frames[i] == HRead(x, w))
            && (LiveHandler(s.h, x) && !r && w ==> s'.frames[i] == HWrite(x))
            && (!LiveHandler(s.h, x) && s.h.walking == 0 ==> x in s'.h.freed && x !in s'.h.list)
  {
    assert x in HandlerPointers(s.frames[i]);
    assert HandlerPointers(s.frames[i]) <= Elems(s.h.list);
    RemoveElems(s.h.list, x);
  }

  /** The descriptor has a live handler. */
  ghost predicate Handled(h: HPart, fd: int) {
    exists x :: LiveHandler(h, x) && h.handlers[x].fd == fd
  }

  /** aio_set_fd_handler decides whether its descriptor has a live handler, and no other. */
  lemma SetHandlerDecides(h: HPart, frames: seq<Frame>, fd: int, install: bool, id: Id, other: int)
    requires HInv(h, frames) && id !in h.handlers
    ensures var h' := SetHandler(h, fd, install, id);
            Handled(h', other) <==> if other == fd then install else Handled(h, other)
  {
    FindHandlerSpec(h.list, h.handlers, fd);
    var node, h' := FindHandler(h.list, h.handlers, fd), SetHandler(h, fd, install, id);
    if node.Some? {
      RemoveElems(h.list, node.value);
      assert LiveHandler(h, node.value);
    }
    forall x | LiveHandler(h, x) && h.handlers[x].fd != fd
      ensures LiveHandler(h', x) && h'.handlers[x] == h.handlers[x]
    {
    }
    forall x | LiveHandler(h', x) && x != id ensures LiveHandler(h, x) && h'.handlers[x] == h.handlers[x] {
    }
    if install {
      assert LiveHandler(h', if node.None? then id else node.value);
    }
  }

  /** Which bottom halves are due after an operation: the scheduled one, and those that were, but
      for the one cancelled, deleted or new. */
  lemma BhOpDecides(b: BhPart, step: Step, x: Id)
    requires (step.NewBh? && step.id !in b.bhs) ||
             ((step.ScheduleBh? || step.CancelBh? || step.DeleteBh?) && Usable(b, step.id))
    ensures Due(BhOp(b, step), x) <==> if x == step.id then step.ScheduleBh? else Due(b, x)
  {
  }

  /** After its read callback a handler that poll() found writable too is called for that, if it is
      still live. */
  lemma WriteFollows(s: State, i: nat, n: Id)
    requires Inv(s) && Enabled(s, HReturns(i)) && s.frames[i] == HRead(n, true)
    ensures LiveHandler(s.h, n) <==> Apply(s, HReturns(i)).frames[i] == HWrite(n)
  {
    assert n in HandlerPointers(s.frames[i]);
    assert HandlerPointers(s.frames[i]) <= Elems(s.h.list);
  }

  /** A handler's callback is entered only while the handler is live. */
  lemma CallsLive(s: State, step: Step, i: nat, n: Id)
    requires Inv(s) && Enabled(s, step) && i < |s.frames|
    requires var f := Apply(s, step).frames[i]; f != s.frames[i] && (f == HWrite(n) || (f.HRead? && f.n == n))
    ensures LiveHandler(s.h, n)
  {
    assert n in HandlerPointers(s.frames[i]);
    assert HandlerPointers(s.frames[i]) <= Elems(s.h.list);
  }
}
