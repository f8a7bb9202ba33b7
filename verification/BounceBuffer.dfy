/** The one bounce buffer of address_space_map and the clients waiting for it, as steps of
    concurrent threads (exec.c). */
module BounceBuffer {

  import opened Basics

  /** One registration: cpu_register_map_client makes a new entry each time. */
  type Client = nat

  /** Where a thread is. Registration holds map_client_list_lock from Inserted on. */
  datatype Pc =
    | Idle
    | Won(addr: nat)        // address_space_map, in_use just taken
    | Mapped(addr: nat)     // the mapping is handed out
    | Freed                 // address_space_unmap, buffer freed, in_use still set
    | Notifying             // address_space_unmap, in_use cleared, clients not yet notified
    | Inserted(c: Client)   // cpu_register_map_client, client on the list, in_use not yet read

  /** `buffer` is bounce.addr while the buffer exists; `clients` is map_client_list;
      `scheduled` and `gone` are the clients whose bottom half was scheduled and those that
      were unregistered; `registered` are all that ever registered. */
  datatype State = State(inUse: bool, buffer: Option<nat>, clients: set<Client>, scheduled: set<Client>,
                         gone: set<Client>, registered: set<Client>, pcs: seq<Pc>)

  datatype Step =
    | Xchg(t: nat, addr: nat) | Fill(t: nat) | Unmap(t: nat) | ClearInUse(t: nat) | Notify(t: nat)
    | Register(t: nat, c: Client) | Check(t: nat) | Unregister(t: nat, c: Client)

  predicate LockFree(s: State) {
    forall u :: 0 <= u < |s.pcs| ==> !s.pcs[u].Inserted?
  }

  predicate Enabled(s: State, step: Step) {
    && step.t < |s.pcs|
    && match step
       case Xchg(t, _) => s.pcs[t].Idle?
       case Fill(t) => s.pcs[t].Won?
       case Unmap(t) => s.pcs[t].Mapped?
       case ClearInUse(t) => s.pcs[t].Freed?
       case Notify(t) => s.pcs[t].Notifying? && LockFree(s)
       case Register(t, c) => s.pcs[t].Idle? && LockFree(s) && c !in s.registered
       case Check(t) => s.pcs[t].Inserted?
       case Unregister(t, c) => s.pcs[t].Idle? && LockFree(s)
  }

  function Move(s: State, t: nat, pc: Pc): State
    requires t < |s.pcs|
  {
    s.(pcs := s.pcs[t := pc])
  }

  /** cpu_notify_map_clients_locked */
  function NotifyAll(s: State): State {
    s.(scheduled := s.scheduled + s.clients, clients := {})
  }

  function Apply(s: State, step: Step): State
    requires Enabled(s, step)
  {
    match step
    case Xchg(t, addr) => if s.inUse then s else Move(s.(inUse := true), t, Won(addr))
    case Fill(t) => Move(s.(buffer := Some(s.pcs[t].addr)), t, Mapped(s.pcs[t].addr))
    case Unmap(t) => Move(s.(buffer := None), t, Freed)
    case ClearInUse(t) => Move(s.(inUse := false), t, Notifying)
    case Notify(t) => Move(NotifyAll(s), t, Idle)
    case Register(t, c) =>
      Move(s.(clients := s.clients + {c}, registered := s.registered + {c}), t, Inserted(c))
    case Check(t) => Move(if s.inUse then s else NotifyAll(s), t, Idle)
    case Unregister(t, c) =>
      if c in s.clients then s.(clients := s.clients - {c}, gone := s.gone + {c}) else s
  }

  predicate Holds(pc: Pc) {
    pc.Won? || pc.Mapped? || pc.Freed?
  }

  /** Some thread has yet to look at the list after the buffer became free. */
  ghost predicate Pending(s: State) {
    exists u :: 0 <= u < |s.pcs| && (s.pcs[u].Notifying? || s.pcs[u].Inserted?)
  }

  ghost predicate OneHolder(s: State) {
    && (forall t, u :: 0 <= t < |s.pcs| && 0 <= u < |s.pcs| && Holds(s.pcs[t]) && Holds(s.pcs[u]) ==> t == u)
    && (s.inUse <==> exists t :: 0 <= t < |s.pcs| && Holds(s.pcs[t]))
  }

  ghost predicate BufferOk(s: State) {
    && (forall t :: 0 <= t < |s.pcs| && s.pcs[t].Mapped? ==> s.buffer == Some(s.pcs[t].addr))
    && (s.buffer.Some? ==> exists t :: 0 <= t < |s.pcs| && s.pcs[t].Mapped?)
  }

  ghost predicate Inv(s: State) {
    && OneHolder(s) && BufferOk(s)
    && (forall t, u :: 0 <= t < u < |s.pcs| ==> !s.pcs[t].Inserted? || !s.pcs[u].Inserted?)
    && (s.clients != {} && !s.inUse ==> Pending(s))
    && s.registered == s.clients + s.scheduled + s.gone
    && s.clients !! s.scheduled !! s.gone
  }

  ghost predicate Init(s: State) {
    && s == State(false, None, {}, {}, {}, {}, s.pcs)
    && forall t :: 0 <= t < |s.pcs| ==> s.pcs[t].Idle?
  }

  lemma XchgInv(s: State, step: Step)
    requires Inv(s) && Enabled(s, step) && step.Xchg?
    ensures Inv(Apply(s, step))
  {
    var s' := Apply(s, step);
    if !s.inUse {
      assert Holds(s'.pcs[step.t]);
    }
  }

  lemma HolderInv(s: State, step: Step)
    requires Inv(s) && Enabled(s, step) && (step.Fill? || step.Unmap?)
    ensures Inv(Apply(s, step))
  {
    var s', t := Apply(s, step), step.t;
    assert Holds(s.pcs[t]) && Holds(s'.pcs[t]);
    assert step.Fill? ==> s'.pcs[t].Mapped?;
  }

  lemma ClearInv(s: State, step: Step)
    requires Inv(s) && Enabled(s, step) && step.ClearInUse?
    ensures Inv(Apply(s, step))
  {
    var s', t := Apply(s, step), step.t;
    assert Holds(s.pcs[t]) && s'.pcs[t].Notifying?;
    assert s'.buffer.None?;
  }

  /** Steps that leave the buffer alone. */
  lemma SameHolders(s: State, s': State, t: nat, pc: Pc)
    requires OneHolder(s) && BufferOk(s) && t < |s.pcs| && !Holds(s.pcs[t]) && !Holds(pc)
    requires s'.inUse == s.inUse && s'.buffer == s.buffer && s'.pcs == s.pcs[t := pc]
    ensures OneHolder(s') && BufferOk(s')
  {
    assert forall u :: 0 <= u < |s.pcs| ==> (Holds(s'.pcs[u]) <==> Holds(s.pcs[u]));
    if s.inUse {
      var u :| 0 <= u < |s.pcs| && Holds(s.pcs[u]);
      assert Holds(s'.pcs[u]);
    }
    if s.buffer.Some? {
      var u :| 0 <= u < |s.pcs| && s.pcs[u].Mapped?;
      assert s'.pcs[u].Mapped?;
    }
  }

  lemma ListInv(s: State, step: Step)
    requires Inv(s) && Enabled(s, step) && (step.Notify? || step.Register? || step.Check? || step.Unregister?)
    ensures Inv(Apply(s, step))
  {
    var s', t := Apply(s, step), step.t;
    SameHolders(s, s', t, s'.pcs[t]);
    if step.Register? {
      assert s'.pcs[t].Inserted?;
    }
    if step.Unregister? && Pending(s) {
      var u :| 0 <= u < |s.pcs| && (s.pcs[u].Notifying? || s.pcs[u].Inserted?);
      assert s'.pcs[u] == s.pcs[u];
    }
  }

  lemma NextInv(s: State, step: Step)
    requires Inv(s) && Enabled(s, step)
    ensures Inv(Apply(s, step))
  {
    match step {
      case Xchg(_, _) => XchgInv(s, step);
      case Fill(_) => HolderInv(s, step);
      case Unmap(_) => HolderInv(s, step);
      case ClearInUse(_) => ClearInv(s, step);
      case _ => ListInv(s, step);
    }
  }

  ghost predicate Next(s: State, s': State) {
    exists step :: Enabled(s, step) && s' == Apply(s, step)
  }

  ghost predicate Run(run: seq<State>) {
    && |run| > 0 && Init(run[0])
    && forall k :: 0 < k < |run| ==> Next(run[k - 1], run[k])
  }

  lemma {:induction false} RunInv(run: seq<State>, k: nat)
    requires Run(run) && k < |run|
    ensures Inv(run[k])
  {
    if k > 0 {
      RunInv(run, k - 1);
      assert Next(run[k - 1], run[k]);
      var step :| Enabled(run[k - 1], step) && run[k] == Apply(run[k - 1], step);
      NextInv(run[k - 1], step);
    }
  }

  /** In every interleaving at most one mapping is live, and it keeps its own buffer. */
  lemma OneMapping(run: seq<State>, k: nat, t: nat, u: nat)
    requires Run(run) && k < |run| && t < |run[k].pcs| && u < |run[k].pcs|
    requires run[k].pcs[t].Mapped? && run[k].pcs[u].Mapped?
    ensures t == u && run[k].buffer == Some(run[k].pcs[t].addr)
  {
    RunInv(run, k);
    var s := run[k];
    assert Holds(s.pcs[t]) && Holds(s.pcs[u]);
  }

  /** The list lock excludes: at most one thread is between entering its client and testing the
      buffer. */
  lemma OneRegisters(run: seq<State>, k: nat, t: nat, u: nat)
    requires Run(run) && k < |run| && t < |run[k].pcs| && u < |run[k].pcs|
    requires run[k].pcs[t].Inserted? && run[k].pcs[u].Inserted?
    ensures t == u
  {
    RunInv(run, k);
  }

  /** No client is left behind: one on the list waits for a buffer in use, or a thread is
      still on its way to the list; one off the list was either scheduled or unregistered. */
  lemma NoClientForgotten(run: seq<State>, k: nat, c: Client)
    requires Run(run) && k < |run| && c in run[k].registered
    ensures c in run[k].clients ==>
              (run[k].inUse || Pending(run[k])) && c !in run[k].scheduled && c !in run[k].gone
    ensures c !in run[k].clients ==> (c in run[k].scheduled <==> c !in run[k].gone)
  {
    RunInv(run, k);
  }

  function Last(run: seq<State>): State
    requires |run| > 0
  {
    run[|run| - 1]
  }

  lemma Extend(run: seq<State>, step: Step) returns (run': seq<State>)
    requires Run(run) && Enabled(Last(run), step)
    ensures Run(run') && Last(run') == Apply(Last(run), step) && run < run'
  {
    run' := run + [Apply(Last(run), step)];
    forall k | 0 < k < |run'| ensures Next(run'[k - 1], run'[k]) {
      if k < |run| {
        assert Next(run[k - 1], run[k]);
      }
    }
  }

  /** When no thread holds the buffer, an idle one gets it, for its own address. */
  lemma FreeIsMapped(run: seq<State>, t: nat, addr: nat) returns (run': seq<State>)
    requires Run(run) && t < |Last(run).pcs| && Last(run).pcs[t].Idle?
    requires forall u :: 0 <= u < |Last(run).pcs| ==> !Holds(Last(run).pcs[u])
    ensures Run(run') && run < run' && Last(run').pcs == Last(run).pcs[t := Mapped(addr)]
    ensures Last(run').buffer == Some(addr)
  {
    RunInv(run, |run| - 1);
    run' := Extend(run, Xchg(t, addr));
    run' := Extend(run', Fill(t));
  }

  /** The thread that gives the buffer back takes every waiting client off the list and schedules
      it. */
  lemma UnmapServes(run: seq<State>, t: nat) returns (run': seq<State>)
    requires Run(run) && t < |Last(run).pcs| && Last(run).pcs[t].Mapped?
    requires forall u :: 0 <= u < |Last(run).pcs| && u != t ==> !Last(run).pcs[u].Inserted?
    ensures Run(run') && run < run' && Last(run').pcs == Last(run).pcs[t := Idle] && !Last(run').inUse
    ensures Last(run').clients == {} && Last(run').scheduled == Last(run).scheduled + Last(run).clients
  {
    run' := Extend(run, Unmap(t));
    run' := Extend(run', ClearInUse(t));
    run' := Extend(run', Notify(t));
  }

  /** A client that registers while the buffer is free is scheduled at once. */
  lemma RegisterServes(run: seq<State>, t: nat, c: Client) returns (run': seq<State>)
    requires Run(run) && t < |Last(run).pcs| && Last(run).pcs[t].Idle?
    requires forall u :: 0 <= u < |Last(run).pcs| && u != t ==> !Last(run).pcs[u].Inserted?
    requires !Last(run).inUse && c !in Last(run).registered
    ensures Run(run') && run < run' && Last(run').pcs == Last(run).pcs
    ensures c in Last(run').scheduled && Last(run').clients == {}
  {
    run' := Extend(run, Register(t, c));
    run' := Extend(run', Check(t));
  }

  /** A client that registers while the buffer is in use waits. */
  lemma RegisterWaits(run: seq<State>, t: nat, c: Client) returns (run': seq<State>)
    requires Run(run) && t < |Last(run).pcs| && Last(run).pcs[t].Idle?
    requires forall u :: 0 <= u < |Last(run).pcs| && u != t ==> !Last(run).pcs[u].Inserted?
    requires Last(run).inUse && c !in Last(run).registered
    ensures Run(run') && run < run' && Last(run').pcs == Last(run).pcs
    ensures Last(run').clients == Last(run).clients + {c} && Last(run').scheduled == Last(run).scheduled
  {
    run' := Extend(run, Register(t, c));
    run' := Extend(run', Check(t));
  }

  /** A client that unregisters while it waits will not be scheduled. */
  lemma UnregisterRemoves(run: seq<State>, t: nat, c: Client) returns (run': seq<State>)
    requires Run(run) && t < |Last(run).pcs| && Last(run).pcs[t].Idle?
    requires forall u :: 0 <= u < |Last(run).pcs| && u != t ==> !Last(run).pcs[u].Inserted?
    requires c in Last(run).clients
    ensures Run(run') && run < run' && Last(run').clients == Last(run).clients - {c} && c in Last(run').gone
    ensures c !in Last(run').scheduled
  {
    run' := Extend(run, Unregister(t, c));
    RunInv(run', |run'| - 1);
  }
}
