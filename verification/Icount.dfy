/** Instruction counting: a budget split between a 16-bit decrementer that generated code
    uses up and the rest (cpus.c, cpu-exec.c). */
module Icount {

  const DECR_MAX: nat := 0xffff
  const CF_COUNT_MASK: nat := 0x7fff

  /** What the guest meets next: a translated block of `n` instructions, of which `done` are
      executed before it ends or faults; an interrupt raised before it stops it; `cut` bounds
      the block made to fit if the budget runs out. */
  datatype Event = Event(interrupted: bool, n: nat, done: nat, cut: nat)

  predicate EventOk(e: Event) {
    e.done <= e.n <= CF_COUNT_MASK
  }

  function Min(a: nat, b: nat): nat {
    if a < b then a else b
  }

  /** What a single counter of any width would let the guest execute: whole blocks while the budget
      covers them, then one block made to fit; an interrupt ends it. */
  function Ideal(interrupt: bool, budget: nat, events: seq<Event>): nat
    requires forall i :: 0 <= i < |events| ==> EventOk(events[i])
  {
    if events == [] || interrupt || events[0].interrupted then 0
    else if events[0].n <= budget then
      assert EventOk(events[0]);
      events[0].done + Ideal(false, budget - events[0].done, events[1..])
    else Min(budget, events[0].cut)
  }

  class TcgCpu {
    var icount: int          // timers_state.qemu_icount
    var low: nat             // icount_decr.u16.low
    var interrupt: bool      // icount_decr.u16.high is 0xffff
    var extra: nat           // icount_extra

    ghost predicate Valid()
      reads this
    {
      low <= DECR_MAX
    }

    constructor ()
      ensures Valid() && Raw() == 0 && low + extra == 0 && !interrupt
    {
      icount, low, interrupt, extra := 0, 0, false, 0;
    }

    /** cpu_get_icount_raw, inside or outside the execution loop. */
    function Raw(): int
      reads this
    {
      icount - (low + extra)
    }

    /** icount_decr.u32 read as a signed number. */
    function Decr(): int
      reads this
    {
      if interrupt then low - 0x10000 else low
    }

    /** Taking back what is left, before and after cpu_exec in tcg_cpu_exec. */
    method Fold()
      requires Valid()
      modifies `icount, `low, `extra
      ensures Valid() && Raw() == old(Raw()) && low == 0 && extra == 0
    {
      icount := icount - (low + extra);
      low := 0;
      extra := 0;
    }

    /** The budget of tcg_cpu_exec. */
    method SetBudget(limit: nat)
      requires Valid() && low == 0 && extra == 0
      modifies `icount, `low, `extra
      ensures Valid() && Raw() == old(Raw()) && low + extra == limit
    {
      var count := limit;
      icount := icount + count;
      var decr := if count > DECR_MAX then DECR_MAX else count;
      count := count - decr;
      low := decr;
      extra := count;
    }

    /** The start of a translated block: it runs if the decrementer covers it. */
    method RunBlock(n: nat) returns (ran: bool)
      requires Valid()
      modifies `low
      ensures Valid() && ran == (old(Decr()) >= n)
      ensures low == old(low) - (if ran then n else 0)
    {
      var count := Decr() - n;
      if count < 0 {
        return false;
      }
      low := count;
      return true;
    }

    /** cpu_restore_state_from_tb: a block of `n` that stopped after `done` instructions gives
        the others back. */
    method Restore(n: nat, done: nat)
      requires low + n <= DECR_MAX && done <= n
      modifies `low
      ensures Valid() && low == old(low) + (n - done)
    {
      low := low + n;
      low := low - done;
    }

    /** cpu_exec_nocache: a block of at most `left` instructions is made and run. */
    method RunNocache(left: nat, cut: nat) returns (n: nat)
      requires Valid() && left == Decr()
      modifies `low
      ensures Valid() && n == Min(cut, Min(left, CF_COUNT_MASK))
      ensures Raw() == old(Raw()) + n
    {
      var max := if left > CF_COUNT_MASK then CF_COUNT_MASK else left;
      n := if cut < max then cut else max;
      var ran := RunBlock(n);
    }

    /** TB_EXIT_ICOUNT_EXPIRED in cpu_exec: refill, or run the rest and leave the loop. */
    method Expired(cut: nat) returns (refilled: bool, n: nat)
      requires Valid()
      modifies `low, `extra
      ensures Valid() && Raw() == old(Raw()) + n && low + extra + n == old(low + extra)
      ensures refilled == (old(extra) != 0 && old(Decr()) >= 0) && (refilled ==> n == 0)
      ensures refilled ==> low == if old(low + extra) < DECR_MAX then old(low + extra) else DECR_MAX
      ensures !refilled ==> extra == old(extra)
      ensures !refilled ==> n == if old(Decr()) > 0 then Min(cut, Min(old(low), CF_COUNT_MASK)) else 0
    {
      var left := Decr();
      n := 0;
      if extra != 0 && left >= 0 {
        extra := extra + left;
        left := if extra < DECR_MAX then extra else DECR_MAX;
        extra := extra - left;
        low := left;
        return true, 0;
      }
      if left > 0 {
        n := RunNocache(left, cut);
      }
      return false, n;
    }

    /** One block in the loop of cpu_exec, retried after a refill; `left` is that the loop
        ends. */
    method Execute(e: Event) returns (n: nat, left: bool)
      requires Valid() && EventOk(e)
      modifies `low, `extra, `interrupt
      ensures Valid() && Raw() == old(Raw()) + n && low + extra + n == old(low + extra)
      ensures interrupt == (old(interrupt) || e.interrupted)
      ensures left <==> interrupt || old(low + extra) < e.n
      ensures n == if !left then e.done else if interrupt then 0 else Min(old(low + extra), e.cut)
    {
      if e.interrupted {
        interrupt := true;
      }
      var ran := RunBlock(e.n);
      if !ran {
        var refilled: bool;
        refilled, n := Expired(e.cut);
        if !refilled {
          return n, true;
        }
        ran := RunBlock(e.n);
        if !ran {
          refilled, n := Expired(e.cut);
          assert !refilled;
          return n, true;
        }
      }
      if e.done < e.n {
        Restore(e.n, e.done);
      }
      return e.done, false;
    }

    /** tcg_cpu_exec: the split counter lets the guest execute exactly what a single one would, the
        raw counter advances by as much, and nothing is left in the decrementer. */
    method TcgCpuExec(limit: nat, events: seq<Event>) returns (executed: nat)
      requires Valid() && forall i :: 0 <= i < |events| ==> EventOk(events[i])
      modifies this
      ensures Valid() && low == 0 && extra == 0 && !interrupt
      ensures Raw() == old(Raw()) + executed && executed <= limit
      ensures executed == Ideal(old(interrupt), limit, events)
    {
      Fold();
      SetBudget(limit);
      executed := 0;
      var i, left := 0, false;
      while i < |events| && !left
        invariant i <= |events| && Valid() && Raw() == old(Raw()) + executed && low + extra + executed == limit
        invariant executed + (if left then 0 else Ideal(interrupt, low + extra, events[i..])) ==
                  Ideal(old(interrupt), limit, events)
      {
        assert events[i..][0] == events[i] && events[i..][1..] == events[i + 1..];
        var n;
        n, left := Execute(events[i]);
        executed := executed + n;
        i := i + 1;
      }
      Fold();
      interrupt := false;
    }
  }
}
