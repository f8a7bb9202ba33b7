/** The two-vCPU rendezvous of hypercall.c: wait_race with its timed wait, the
    start/end/refresh commands and the breakpoint that arms wait_race. */
module Rendezvous {

  import opened Basics

  datatype Phase = PhaseUnreached | PhaseSleeping | PhasePassed

  /** The globals and CPUState fields that belong to one vCPU. */
  datatype Vcpu = Vcpu(
    phase: Phase, running: bool, isRefresh: bool,
    readingAddr: nat, writingAddr: nat,
    waitRace: bool, isRace: bool, breakpoint: bool)

  const MAX_OPERANDS: nat := 4

  datatype Access = Access(addr: nat, isWrite: bool)

  /** The access of the faulting instruction: its first operand with an address; the
      last operand is the one written. */
  function FirstAccess(operands: seq<nat>, i: nat): Option<Access>
    requires |operands| == MAX_OPERANDS && i <= MAX_OPERANDS
    decreases MAX_OPERANDS - i
  {
    if i == MAX_OPERANDS then None
    else if operands[i] != 0 then Some(Access(operands[i], i == MAX_OPERANDS - 1))
    else FirstAccess(operands, i + 1)
  }

  /** Operand `k` is the first with an address. */
  ghost predicate IsFirst(operands: seq<nat>, k: nat) {
    k < |operands| && operands[k] != 0 && forall j :: 0 <= j < k ==> operands[j] == 0
  }

  lemma {:induction false} FirstAccessFrom(operands: seq<nat>, i: nat)
    requires |operands| == MAX_OPERANDS && i <= MAX_OPERANDS && forall j :: 0 <= j < i ==> operands[j] == 0
    ensures match FirstAccess(operands, i)
            case None => forall k :: 0 <= k < MAX_OPERANDS ==> operands[k] == 0
            case Some(a) => exists k: nat :: IsFirst(operands, k) && a == Access(operands[k], k == MAX_OPERANDS - 1)
    decreases MAX_OPERANDS - i
  {
    if i < MAX_OPERANDS {
      if operands[i] != 0 {
        assert IsFirst(operands, i);
      } else {
        FirstAccessFrom(operands, i + 1);
      }
    }
  }

  /** The access is that of the first operand with an address, a write if that is the last
      operand; there is none exactly if no operand has an address. */
  lemma FirstAccessIs(operands: seq<nat>, k: nat)
    requires |operands| == MAX_OPERANDS
    ensures FirstAccess(operands, 0).None? <==> forall j :: 0 <= j < MAX_OPERANDS ==> operands[j] == 0
    ensures IsFirst(operands, k) ==> FirstAccess(operands, 0) == Some(Access(operands[k], k == MAX_OPERANDS - 1))
  {
    FirstAccessFrom(operands, 0);
    if IsFirst(operands, k) {
      var n: nat :|
        IsFirst(operands, n) && FirstAccess(operands, 0) == Some(Access(operands[n], n == MAX_OPERANDS - 1));
      assert n == k;
    }
  }

  /** Two instructions race: their first addresses are the same, and one of them is written. */
  ghost predicate Races(a: seq<nat>, b: seq<nat>) {
    exists j: nat, k: nat ::
      IsFirst(a, j) && IsFirst(b, k) && a[j] == b[k] && (j == MAX_OPERANDS - 1 || k == MAX_OPERANDS - 1)
  }

  lemma RacesIsConflict(a: seq<nat>, b: seq<nat>)
    requires |a| == |b| == MAX_OPERANDS
    ensures Races(a, b) <==> Conflict(FirstAccess(a, 0), FirstAccess(b, 0))
  {
    FirstAccessFrom(a, 0);
    FirstAccessFrom(b, 0);
    if Races(a, b) {
      var j: nat, k: nat :|
        IsFirst(a, j) && IsFirst(b, k) && a[j] == b[k] && (j == MAX_OPERANDS - 1 || k == MAX_OPERANDS - 1);
      FirstAccessIs(a, j);
      FirstAccessIs(b, k);
    }
  }

  function Record(c: Vcpu, a: Option<Access>): Vcpu {
    match a
    case None => c
    case Some(Access(addr, true)) => c.(writingAddr := addr, readingAddr := 0)
    case Some(Access(addr, false)) => c.(readingAddr := addr, writingAddr := 0)
  }

  /** is_same_address */
  predicate SameAddress(a: Vcpu, b: Vcpu) {
    || (a.writingAddr != 0 && a.writingAddr == b.writingAddr)
    || (a.writingAddr != 0 && a.writingAddr == b.readingAddr)
    || (a.readingAddr != 0 && a.readingAddr == b.writingAddr)
  }

  /** Two accesses race: the same address, and at least one of them a write. */
  predicate Conflict(a: Option<Access>, b: Option<Access>) {
    a.Some? && b.Some? && a.value.addr == b.value.addr && (a.value.isWrite || b.value.isWrite)
  }

  type Cpu = i: int | 0 <= i < 2

  function Opponent(i: Cpu): Cpu {
    1 - i
  }

  /** Where a vCPU thread is in kvm_cpu_exec: about to call wait_race, running the
      guest, or inside qemu_cond_timedwait. */
  datatype Pc = LoopTop | Guest | Asleep

  /** How far a vCPU is in the current round of the guest's test program. */
  datatype Stage = Fresh | Refreshed | Started | Ended

  /** What is known of a vCPU's part in the current round. */
  datatype History = History(
    stage: Stage, arrived: bool, access: Option<Access>, verdict: Option<bool>, reported: Option<nat>)

  /** `met` says that one vCPU arrived while the other slept, `ready` that both vCPUs
      have been refreshed for the current round. */
  datatype Machine = Machine(cpu: seq<Vcpu>, pc: seq<Pc>, hist: seq<History>, met: bool, ready: bool)

  /** Restart is the start command of a vCPU that was not refreshed after its last round. */
  datatype Step =
    | Refresh(i: Cpu)
    | Start(i: Cpu)
    | Restart(i: Cpu)
    | End(i: Cpu)
    | Hit(i: Cpu)
    | EnterWait(i: Cpu, operands: seq<nat>)
    | Wake(i: Cpu, signalled: bool)

  function Unplayed(stage: Stage): History {
    History(stage, false, None, None, None)
  }

  predicate Shape(m: Machine) {
    |m.cpu| == 2 && |m.pc| == 2 && |m.hist| == 2
  }

  /** hypercall_command_refresh */
  function RefreshCpu(c: Vcpu): Vcpu {
    c.(running := false, waitRace := false, isRefresh := true, breakpoint := false)
  }

  /** hypercall_command_start, when the vCPU is ready */
  function StartCpu(c: Vcpu): Vcpu {
    c.(isRace := false, phase := PhaseUnreached, running := true, breakpoint := true)
  }

  /** hypercall_command_end, when a program is running */
  function EndCpu(c: Vcpu): Vcpu {
    c.(running := false, breakpoint := false)
  }

  /** The clearing at the head of wait_race */
  function ClearStale(c: Vcpu): Vcpu {
    if c.isRefresh
    then c.(isRefresh := false, writingAddr := 0, readingAddr := 0, phase := PhaseUnreached)
    else c
  }

  /** The end of wait_race: the verdict is stored and the phase is passed. */
  function Decide(c: Vcpu, isRace: bool): Vcpu {
    c.(phase := PhasePassed, waitRace := false, isRace := isRace)
  }

  /** What wait_race makes of the arriving vCPU `c`: a verdict, or sleep. */
  function Arrive(c: Vcpu, other: Vcpu): Vcpu {
    match other.phase
    case PhaseSleeping => Decide(c, SameAddress(c, other))
    case PhasePassed => Decide(c, false)
    case PhaseUnreached => c.(phase := PhaseSleeping)
  }

  /** A refreshed vCPU starts once the other one is back from its own refresh. */
  predicate Enabled(m: Machine, s: Step)
    requires Shape(m)
  {
    match s
    case Refresh(i) =>
      && m.pc[i] == Guest && m.hist[i].stage in {Fresh, Ended}
      && m.hist[Opponent(i)].stage != Started
    case Start(i) =>
      && m.pc[i] == Guest && m.hist[i].stage == Refreshed
      && m.ready && !m.cpu[Opponent(i)].isRefresh
    case Restart(i) =>
      && m.pc[i] == Guest && m.hist[i].stage == Ended
      && (m.hist[Opponent(i)].stage == Ended ||
          (m.hist[Opponent(i)].stage == Started && !m.hist[Opponent(i)].arrived))
    case Hit(i) => m.pc[i] == Guest && m.hist[i].stage == Started && m.cpu[i].breakpoint
    case End(i) => m.pc[i] == Guest && m.hist[i].stage == Started
    case EnterWait(i, operands) => m.pc[i] == LoopTop && |operands| == MAX_OPERANDS
    case Wake(i, signalled) => m.pc[i] == Asleep
  }

  function Put(m: Machine, i: Cpu, c: Vcpu, pc: Pc, h: History): Machine
    requires Shape(m)
  {
    m.(cpu := m.cpu[i := c], pc := m.pc[i := pc], hist := m.hist[i := h])
  }

  /** wait_race from taking the lock to releasing it, or to falling asleep. */
  function Enter(m: Machine, i: Cpu, operands: seq<nat>): Machine
    requires Shape(m) && |operands| == MAX_OPERANDS
  {
    var c, h, other := ClearStale(m.cpu[i]), m.hist[i], m.cpu[Opponent(i)];
    if !c.waitRace then Put(m, i, c, Guest, h)
    else
      var a := FirstAccess(operands, 0);
      var c1, h1 := Record(c, a), h.(arrived := true, access := a);
      var c2 := Arrive(c1, other);
      if c2.phase == PhaseSleeping then Put(m, i, c2, Asleep, h1)
      else Put(m, i, c2, Guest, h1.(verdict := Some(c2.isRace))).(met := m.met || other.phase == PhaseSleeping)
  }

  /** wait_race after qemu_cond_timedwait, which returned `signalled`. */
  function WakeUp(m: Machine, i: Cpu, signalled: bool): Machine
    requires Shape(m)
  {
    var c, other := m.cpu[i], m.cpu[Opponent(i)];
    var bothHit := signalled || other.phase == PhasePassed;
    var r := bothHit && SameAddress(c, other);
    Put(m, i, Decide(c, r), Guest, m.hist[i].(verdict := Some(r)))
  }

  function Apply(m: Machine, s: Step): Machine
    requires Shape(m) && Enabled(m, s)
  {
    match s
    case Refresh(i) =>
      Put(m, i, RefreshCpu(m.cpu[i]), LoopTop, Unplayed(Refreshed))
      .(met := false, ready := m.hist[Opponent(i)].stage == Refreshed)
    case Start(i) =>
      Put(m, i, StartCpu(m.cpu[i]), LoopTop, m.hist[i].(stage := Started))
    case Restart(i) =>
      Put(m, i, StartCpu(m.cpu[i]), LoopTop, Unplayed(Started)).(met := false)
    case Hit(i) =>
      Put(m, i, m.cpu[i].(waitRace := true, breakpoint := false), LoopTop, m.hist[i])
    case End(i) =>
      Put(m, i, EndCpu(m.cpu[i]), LoopTop,
          m.hist[i].(stage := Ended, reported := Some(if m.cpu[i].isRace then 1 else 0)))
    case EnterWait(i, operands) => Enter(m, i, operands)
    case Wake(i, signalled) => WakeUp(m, i, signalled)
  }

  /** A step of vCPUs that are refreshed before every round. */
  ghost predicate Next(m: Machine, m': Machine) {
    Shape(m) && exists s: Step :: !s.Restart? && Enabled(m, s) && m' == Apply(m, s)
  }

  /** Before the first round the globals may hold anything left from earlier use. */
  ghost predicate Init(m: Machine) {
    && Shape(m)
    && !m.ready
    && forall i: Cpu :: m.hist[i].stage == Fresh && m.pc[i] == Guest
  }

  /** Has `c` recorded exactly the access `a` of this round? */
  predicate Recorded(c: Vcpu, a: Option<Access>) {
    match a
    case None => c.readingAddr == 0 && c.writingAddr == 0
    case Some(Access(addr, w)) =>
      addr != 0 && c.readingAddr == (if w then 0 else addr) && c.writingAddr == (if w then addr else 0)
  }

  /** One vCPU's fields against its history. */
  ghost predicate CpuInv(c: Vcpu, pc: Pc, h: History) {
    match h.stage
    case Fresh => pc == Guest
    case Refreshed =>
      && !h.arrived && h.access.None? && h.verdict.None? && pc != Asleep && !c.waitRace && !c.running
      && !c.breakpoint
      && (c.isRefresh ==> pc == LoopTop)
      && (!c.isRefresh ==> Recorded(c, None) && c.phase == PhaseUnreached)
    case _ =>
      && !c.isRefresh && Recorded(c, h.access)
      && (h.stage == Ended ==> pc != Asleep && !c.waitRace && !c.running && !c.breakpoint)
      && (!h.arrived ==> c.phase == PhaseUnreached && h.verdict.None? && h.access.None? && pc != Asleep && !c.isRace)
      && (h.arrived ==> !c.breakpoint && (c.waitRace <==> pc == Asleep))
      && (h.arrived && pc == Asleep ==> c.phase == PhaseSleeping && h.verdict.None? && !c.isRace)
      && (h.arrived && pc != Asleep ==> c.phase == PhasePassed && h.verdict == Some(c.isRace))
      && (c.waitRace && !h.arrived ==> !c.breakpoint && pc == LoopTop)
      && (h.stage == Ended ==> h.reported == Some(if c.isRace then 1 else 0))
      && (h.stage == Started ==> c.running && (!h.arrived && !c.waitRace ==> c.breakpoint))
  }

  predicate InRound(h: History) {
    h.stage == Started || h.stage == Ended
  }

  /** One vCPU `i` against the other, `j`, while `i` is in the round. */
  ghost predicate PairInRound(hi: History, pci: Pc, cj: Vcpu, hj: History, met: bool) {
    && hj.stage != Fresh
    && (hj.stage == Refreshed ==> !cj.isRefresh)
    && (met ==> hi.arrived && hj.arrived)
    && (pci == Asleep && !met ==> !hj.arrived)
    && (pci == Asleep && met ==> hj.verdict.Some?)
    && (hi.verdict.Some? ==> hi.verdict.value == (met && Conflict(hi.access, hj.access)))
  }

  /** One vCPU `i` against the other, `j`, over all stages. */
  ghost predicate PairInv(pci: Pc, hi: History, cj: Vcpu, hj: History, met: bool, ready: bool) {
    && (ready && InRound(hi) ==> PairInRound(hi, pci, cj, hj, met))
    && (ready ==> hi.stage != Fresh)
    && (hi.stage == Started ==> ready)
    && (hi.stage == Refreshed ==> !met)
  }

  ghost predicate CpuPairInv(m: Machine, i: Cpu)
    requires Shape(m)
  {
    && CpuInv(m.cpu[i], m.pc[i], m.hist[i])
    && PairInv(m.pc[i], m.hist[i], m.cpu[Opponent(i)], m.hist[Opponent(i)], m.met, m.ready)
  }

  ghost predicate Inv(m: Machine) {
    Shape(m) && CpuPairInv(m, 0) && CpuPairInv(m, 1)
  }

  lemma InitInv(m: Machine)
    requires Init(m)
    ensures Inv(m)
  {
  }

  lemma SameIsConflict(a: Vcpu, b: Vcpu, x: Option<Access>, y: Option<Access>)
    requires Recorded(a, x) && Recorded(b, y)
    ensures SameAddress(a, b) == Conflict(x, y) == Conflict(y, x)
  {
  }

  lemma RefreshInv(m: Machine, s: Step)
    requires Inv(m) && Enabled(m, s) && s.Refresh?
    ensures Inv(Apply(m, s))
  {
  }

  lemma StartInv(m: Machine, s: Step)
    requires Inv(m) && Enabled(m, s) && s.Start?
    ensures Inv(Apply(m, s))
  {
  }

  lemma HitInv(m: Machine, s: Step)
    requires Inv(m) && Enabled(m, s) && s.Hit?
    ensures Inv(Apply(m, s))
  {
  }

  lemma EndInv(m: Machine, s: Step)
    requires Inv(m) && Enabled(m, s) && s.End?
    ensures Inv(Apply(m, s))
  {
  }

  lemma {:induction false} FirstAccessNonzero(operands: seq<nat>, i: nat)
    requires |operands| == MAX_OPERANDS && i <= MAX_OPERANDS
    ensures FirstAccess(operands, i).Some? ==> FirstAccess(operands, i).value.addr != 0
    decreases MAX_OPERANDS - i
  {
    if i < MAX_OPERANDS {
      FirstAccessNonzero(operands, i + 1);
    }
  }

  /** wait_race called without a breakpoint pending. */
  lemma PassInv(m: Machine, s: Step)
    requires Inv(m) && Enabled(m, s) && s.EnterWait? && !ClearStale(m.cpu[s.i]).waitRace
    ensures Inv(Apply(m, s))
  {
    assert CpuPairInv(m, s.i) && CpuPairInv(m, Opponent(s.i));
    assert CpuPairInv(Apply(m, s), s.i) && CpuPairInv(Apply(m, s), Opponent(s.i));
  }

  lemma ArriveInv(m: Machine, s: Step)
    requires Inv(m) && Enabled(m, s) && s.EnterWait? && ClearStale(m.cpu[s.i]).waitRace
    ensures Inv(Apply(m, s))
  {
    var i, o, m' := s.i, Opponent(s.i), Apply(m, s);
    assert CpuPairInv(m, i) && CpuPairInv(m, o);
    var c, a := ClearStale(m.cpu[i]), FirstAccess(s.operands, 0);
    FirstAccessNonzero(s.operands, 0);
    assert m.hist[i].stage == Started && Recorded(m.cpu[o], m.hist[o].access);
    SameIsConflict(Record(c, a), m.cpu[o], a, m.hist[o].access);
    assert CpuInv(m'.cpu[i], m'.pc[i], m'.hist[i]);
    assert CpuPairInv(m', i);
    assert CpuPairInv(m', o);
  }

  lemma WakeInv(m: Machine, s: Step)
    requires Inv(m) && Enabled(m, s) && s.Wake?
    ensures Inv(Apply(m, s))
  {
    var i, o, m' := s.i, Opponent(s.i), Apply(m, s);
    assert CpuPairInv(m, i) && CpuPairInv(m, o);
    SameIsConflict(m.cpu[i], m.cpu[o], m.hist[i].access, m.hist[o].access);
    assert CpuPairInv(m', i);
    assert CpuPairInv(m', o);
  }

  lemma NextInv(m: Machine, s: Step)
    requires Inv(m) && Enabled(m, s) && !s.Restart?
    ensures Inv(Apply(m, s))
  {
    match s {
      case Refresh(_) => RefreshInv(m, s);
      case Start(_) => StartInv(m, s);
      case Hit(_) => HitInv(m, s);
      case End(_) => EndInv(m, s);
      case EnterWait(i, _) => if ClearStale(m.cpu[i]).waitRace { ArriveInv(m, s); } else { PassInv(m, s); }
      case Wake(_, _) => WakeInv(m, s);
    }
  }

  /** An interleaving of any number of rounds, from whatever the globals held before. */
  ghost predicate Run(run: seq<Machine>) {
    && |run| > 0 && Init(run[0])
    && forall k :: 0 < k < |run| ==> Next(run[k - 1], run[k])
  }

  lemma {:induction false} RunInv(run: seq<Machine>, k: nat)
    requires Run(run) && k < |run|
    ensures Inv(run[k])
  {
    if k == 0 {
      InitInv(run[0]);
    } else {
      RunInv(run, k - 1);
      assert Next(run[k - 1], run[k]);
      var s: Step :| !s.Restart? && Enabled(run[k - 1], s) && run[k] == Apply(run[k - 1], s);
      NextInv(run[k - 1], s);
    }
  }

  /** A race: one vCPU arrived while the other slept, and their accesses conflict. */
  predicate Raced(m: Machine)
    requires Shape(m)
  {
    m.met && Conflict(m.hist[0].access, m.hist[1].access)
  }

  /** Every verdict of the round, and every report, says whether there was a race. */
  ghost predicate Agreed(m: Machine)
    requires Shape(m)
  {
    m.ready ==>
      forall i: Cpu ::
        && (m.hist[i].verdict.Some? ==> m.hist[i].verdict.value == Raced(m))
        && (m.hist[i].stage == Ended ==>
              m.hist[i].reported == Some(if Raced(m) then 1 else 0))
  }

  lemma InvAgreed(m: Machine)
    requires Inv(m)
    ensures Agreed(m)
  {
    assert CpuPairInv(m, 0) && CpuPairInv(m, 1);
    ConflictSymmetric(m.hist[0].access, m.hist[1].access);
  }

  /** In every interleaving both vCPUs reach the same verdict, the right one, and the
      end command reports it. */
  lemma Agreement(run: seq<Machine>, k: nat)
    requires Run(run) && k < |run|
    ensures Shape(run[k]) && Agreed(run[k])
  {
    RunInv(run, k);
    InvAgreed(run[k]);
  }

  /** Two vCPUs neither of which writes never see a race. */
  lemma ReadsNeverRace(run: seq<Machine>, k: nat, i: Cpu)
    requires Run(run) && k < |run| && Shape(run[k]) && run[k].ready
    requires forall j: Cpu :: run[k].hist[j].access.Some? ==> !run[k].hist[j].access.value.isWrite
    ensures run[k].hist[i].verdict != Some(true)
  {
    Agreement(run, k);
  }

  /** Outside its program a refreshed vCPU has no breakpoint and is ready; inside, it has the
      breakpoint until it hits it. */
  lemma BreakpointOnlyInside(run: seq<Machine>, k: nat, i: Cpu)
    requires Run(run) && k < |run| && Shape(run[k])
    ensures run[k].hist[i].stage in {Refreshed, Ended} ==> !run[k].cpu[i].breakpoint && !run[k].cpu[i].running
    ensures run[k].hist[i].stage == Started ==>
              && run[k].cpu[i].running
              && (run[k].cpu[i].breakpoint <==> !run[k].hist[i].arrived && !run[k].cpu[i].waitRace)
  {
    RunInv(run, k);
    assert CpuPairInv(run[k], 0) && CpuPairInv(run[k], 1);
  }

  lemma ConflictSymmetric(a: Option<Access>, b: Option<Access>)
    ensures Conflict(a, b) == Conflict(b, a)
  {
  }

  /** Both vCPUs are back in the guest from their start command and have not moved yet;
      nothing is said of the addresses. */
  ghost predicate RoundStart(m: Machine) {
    && Shape(m) && m.ready && !m.met
    && forall i: Cpu ::
         && m.pc[i] == Guest && m.hist[i] == Unplayed(Started) && m.cpu[i].phase == PhaseUnreached
         && m.cpu[i].running && m.cpu[i].breakpoint
         && !m.cpu[i].isRefresh && !m.cpu[i].waitRace && !m.cpu[i].isRace
  }

  predicate NoLeftover(c: Vcpu) {
    c.readingAddr == 0 && c.writingAddr == 0
  }

  predicate Clean(m: Machine)
    requires Shape(m)
  {
    NoLeftover(m.cpu[0]) && NoLeftover(m.cpu[1])
  }

  /** The steps of a round that has started. */
  predicate InsideRound(s: Step) {
    s.Hit? || s.EnterWait? || s.Wake? || s.End?
  }

  ghost predicate RoundNext(m: Machine, m': Machine) {
    Shape(m) && exists s :: InsideRound(s) && Enabled(m, s) && m' == Apply(m, s)
  }

  /** An interleaving of the rest of the round that begins in `m`. */
  ghost predicate RoundRun(m: Machine, run: seq<Machine>) {
    && |run| > 0 && run[0] == m
    && forall k :: 0 < k < |run| ==> RoundNext(run[k - 1], run[k])
  }

  function Last(run: seq<Machine>): Machine
    requires |run| > 0
  {
    run[|run| - 1]
  }

  /** Both vCPUs reach the right verdict however the round goes on. */
  ghost predicate AlwaysAgrees(m: Machine) {
    forall run :: RoundRun(m, run) ==> Shape(Last(run)) && Agreed(Last(run))
  }

  predicate VerdictsDiffer(m: Machine) {
    Shape(m) && m.hist[0].verdict.Some? && m.hist[1].verdict.Some? && m.hist[0].verdict != m.hist[1].verdict
  }

  /** The round can go on so that one vCPU sees a race and the other does not. */
  ghost predicate MayDiffer(m: Machine) {
    exists run :: RoundRun(m, run) && VerdictsDiffer(Last(run))
  }

  lemma {:induction false} RoundRunInv(m: Machine, run: seq<Machine>, k: nat)
    requires Inv(m) && RoundRun(m, run) && k < |run|
    ensures Inv(run[k])
  {
    if k > 0 {
      RoundRunInv(m, run, k - 1);
      assert RoundNext(run[k - 1], run[k]);
      var s :| InsideRound(s) && Enabled(run[k - 1], s) && run[k] == Apply(run[k - 1], s);
      NextInv(run[k - 1], s);
    }
  }

  lemma CleanAgrees(m: Machine, run: seq<Machine>)
    requires RoundStart(m) && Clean(m) && RoundRun(m, run)
    ensures Shape(Last(run)) && Agreed(Last(run)) && !VerdictsDiffer(Last(run))
  {
    assert CpuPairInv(m, 0) && CpuPairInv(m, 1);
    RoundRunInv(m, run, |run| - 1);
    RoundReady(m, run, |run| - 1);
    InvAgreed(Last(run));
  }

  lemma RoundExtend(m: Machine, run: seq<Machine>, s: Step) returns (run': seq<Machine>)
    requires RoundRun(m, run) && Shape(Last(run))
    requires InsideRound(s) && Enabled(Last(run), s)
    ensures RoundRun(m, run') && Last(run') == Apply(Last(run), s)
  {
    assert RoundNext(Last(run), Apply(Last(run), s));
    run' := run + [Apply(Last(run), s)];
  }

  lemma WriteAccess(addr: nat)
    requires addr != 0
    ensures FirstAccess([0, 0, 0, addr], 0) == Some(Access(addr, true))
  {
    var operands := [0, 0, 0, addr];
    assert FirstAccess(operands, 3) == Some(Access(addr, true));
    assert FirstAccess(operands, 2) == Some(Access(addr, true));
    assert FirstAccess(operands, 1) == Some(Access(addr, true));
  }

  /** An address left over from vCPU `i`'s last round: the other vCPU writes it, is woken
      without cause before vCPU `i` arrives, and takes the leftover for a race, whatever
      vCPU `i` then accesses. */
  lemma LeftoverDiffers(m: Machine, i: Cpu, operands: seq<nat>) returns (run: seq<Machine>)
    requires RoundStart(m) && !NoLeftover(m.cpu[i]) && |operands| == MAX_OPERANDS
    ensures RoundRun(m, run) && Shape(Last(run))
    ensures Last(run).hist[Opponent(i)].verdict == Some(true) && Last(run).hist[i].verdict == Some(false)
    ensures Last(run).hist[i].access == FirstAccess(operands, 0)
  {
    var o, c := Opponent(i), m.cpu[i];
    var addr := if c.writingAddr != 0 then c.writingAddr else c.readingAddr;
    WriteAccess(addr);
    run := RoundExtend(m, [m], Hit(o));
    run := RoundExtend(m, run, EnterWait(o, [0, 0, 0, addr]));
    assert Last(run).pc[o] == Asleep && Last(run).cpu[i] == c;
    run := RoundExtend(m, run, Wake(o, true));
    assert Last(run).hist[o].verdict == Some(true) && Last(run).cpu[o].phase == PhasePassed;
    assert Last(run).pc[i] == Guest && Last(run).cpu[i] == c;
    run := RoundExtend(m, run, Hit(i));
    run := RoundExtend(m, run, EnterWait(i, operands));
    assert Last(run).hist[i].verdict == Some(false) && Last(run).hist[o].verdict == Some(true);
  }

  /** A started round gives the right verdicts in every interleaving, with every choice of
      operands, exactly when no vCPU holds an address of an earlier round; otherwise some
      interleaving ends in two different verdicts. */
  lemma AgreesIffClean(m: Machine)
    requires RoundStart(m)
    ensures AlwaysAgrees(m) <==> Clean(m)
    ensures MayDiffer(m) <==> !Clean(m)
  {
    if Clean(m) {
      forall run | RoundRun(m, run)
        ensures Shape(Last(run)) && Agreed(Last(run)) && !VerdictsDiffer(Last(run))
      {
        CleanAgrees(m, run);
      }
    } else {
      var i: Cpu := if NoLeftover(m.cpu[0]) then 1 else 0;
      var run := LeftoverDiffers(m, i, [0, 0, 0, 0]);
      assert VerdictsDiffer(Last(run));
      RoundReady(m, run, |run| - 1);
      assert !Agreed(Last(run));
    }
  }

  /** What is left of an earlier round is gone once the instruction's operands are recorded: there was
      nothing, or the instruction has an address of its own. */
  predicate Overwrites(c: Vcpu, operands: seq<nat>)
    requires |operands| == MAX_OPERANDS
  {
    NoLeftover(c) || FirstAccess(operands, 0).Some?
  }

  /** Two vCPUs that meet: vCPU `o` waits, vCPU `i` arrives before it wakes. Both verdicts say
      whether their instructions race, however `o` is woken, also in a round that was not refreshed
      if the instructions access memory. */
  lemma MeetingDecides(m: Machine, i: Cpu, a: seq<nat>, b: seq<nat>, signalled: bool) returns (run: seq<Machine>)
    requires RoundStart(m) && |a| == |b| == MAX_OPERANDS
    requires Overwrites(m.cpu[Opponent(i)], a) && Overwrites(m.cpu[i], b)
    ensures RoundRun(m, run) && Shape(Last(run))
    ensures Last(run).hist[i].verdict == Last(run).hist[Opponent(i)].verdict == Some(Races(a, b))
    ensures Last(run).hist[Opponent(i)].access == FirstAccess(a, 0) && Last(run).hist[i].access == FirstAccess(b, 0)
  {
    var o := Opponent(i);
    RacesIsConflict(a, b);
    run := Arrived(m, i, a, b);
    SameIsConflict(Last(run).cpu[o], Last(run).cpu[i], FirstAccess(a, 0), FirstAccess(b, 0));
    run := RoundExtend(m, run, Wake(o, signalled));
  }

  /** vCPU `i` arrives while the other one sleeps. */
  lemma Arrived(m: Machine, i: Cpu, a: seq<nat>, b: seq<nat>) returns (run: seq<Machine>)
    requires RoundStart(m) && |a| == |b| == MAX_OPERANDS
    requires Overwrites(m.cpu[Opponent(i)], a) && Overwrites(m.cpu[i], b)
    ensures RoundRun(m, run) && Shape(Last(run))
    ensures var s, o := Last(run), Opponent(i);
            && s.pc[o] == Asleep && Recorded(s.cpu[o], FirstAccess(a, 0)) && s.hist[o].access == FirstAccess(a, 0)
            && s.cpu[i].phase == PhasePassed && Recorded(s.cpu[i], FirstAccess(b, 0))
            && s.hist[i].access == FirstAccess(b, 0)
            && s.hist[i].verdict == Some(Conflict(FirstAccess(a, 0), FirstAccess(b, 0)))
  {
    var o := Opponent(i);
    run := Waiting(m, o, a);
    run := RoundExtend(m, run, Hit(i));
    EnterMeets(Last(run), i, b, FirstAccess(a, 0), FirstAccess(b, 0));
    run := RoundExtend(m, run, EnterWait(i, b));
  }

  lemma EnterMeets(s: Machine, i: Cpu, b: seq<nat>, access: Option<Access>, mine: Option<Access>)
    requires Shape(s) && |b| == MAX_OPERANDS && s.cpu[i].waitRace && !s.cpu[i].isRefresh && Overwrites(s.cpu[i], b)
    requires s.cpu[Opponent(i)].phase == PhaseSleeping && Recorded(s.cpu[Opponent(i)], access)
    requires mine == FirstAccess(b, 0)
    ensures var s', o := Enter(s, i, b), Opponent(i);
            && s'.cpu[o] == s.cpu[o] && s'.pc[o] == s.pc[o] && s'.hist[o] == s.hist[o]
            && s'.cpu[i].phase == PhasePassed && Recorded(s'.cpu[i], mine) && s'.hist[i].access == mine
            && s'.hist[i].verdict == Some(Conflict(access, mine))
  {
    FirstAccessNonzero(b, 0);
    ArriveMeets(s.cpu[i], s.cpu[Opponent(i)], access, mine);
  }

  lemma ArriveMeets(c: Vcpu, other: Vcpu, access: Option<Access>, mine: Option<Access>)
    requires (NoLeftover(c) || mine.Some?) && other.phase == PhaseSleeping && Recorded(other, access)
    requires mine.Some? ==> mine.value.addr != 0
    ensures var c' := Arrive(Record(c, mine), other);
            c'.phase == PhasePassed && Recorded(c', mine) && c'.isRace == Conflict(access, mine)
  {
    SameIsConflict(Record(c, mine), other, mine, access);
  }

  /** vCPU `o` alone hits its breakpoint and sleeps. */
  lemma Waiting(m: Machine, o: Cpu, a: seq<nat>) returns (run: seq<Machine>)
    requires RoundStart(m) && |a| == MAX_OPERANDS && Overwrites(m.cpu[o], a)
    ensures RoundRun(m, run) && Shape(Last(run))
    ensures var s := Last(run);
            && s.pc[o] == Asleep && s.cpu[o].phase == PhaseSleeping && Recorded(s.cpu[o], FirstAccess(a, 0))
            && s.hist[o].access == FirstAccess(a, 0)
            && s.pc[Opponent(o)] == Guest && s.cpu[Opponent(o)] == m.cpu[Opponent(o)]
            && s.hist[Opponent(o)] == m.hist[Opponent(o)]
  {
    run := RoundExtend(m, [m], Hit(o));
    FirstAccessNonzero(a, 0);
    run := RoundExtend(m, run, EnterWait(o, a));
  }

  /** Two vCPUs that miss each other: vCPU `o` gives up waiting before vCPU `i` arrives. */
  lemma MissingDecides(m: Machine, i: Cpu, a: seq<nat>, b: seq<nat>, signalled: bool) returns (run: seq<Machine>)
    requires RoundStart(m) && Clean(m) && |a| == |b| == MAX_OPERANDS
    ensures RoundRun(m, run) && Shape(Last(run))
    ensures Last(run).hist[i].verdict == Last(run).hist[Opponent(i)].verdict == Some(false)
  {
    var o := Opponent(i);
    run := Waiting(m, o, a);
    assert !SameAddress(Last(run).cpu[o], Last(run).cpu[i]);
    run := RoundExtend(m, run, Wake(o, signalled));
    run := RoundExtend(m, run, Hit(i));
    run := RoundExtend(m, run, EnterWait(i, b));
  }

  /** A wait that times out before the other vCPU has passed ends without a race, whatever the
      addresses recorded. */
  lemma TimeoutIsNoRace(m: Machine, i: Cpu)
    requires Shape(m) && Enabled(m, Wake(i, false)) && m.cpu[Opponent(i)].phase != PhasePassed
    ensures var m' := Apply(m, Wake(i, false)); m'.hist[i].verdict == Some(false) && !m'.cpu[i].isRace
  {
  }

  lemma {:induction false} RoundReady(m: Machine, run: seq<Machine>, k: nat)
    requires RoundRun(m, run) && k < |run|
    ensures run[k].ready == m.ready
  {
    if k > 0 {
      RoundReady(m, run, k - 1);
      assert RoundNext(run[k - 1], run[k]);
    }
  }

  /** The refresh is what makes every round clean. */
  lemma RefreshedIsClean(run: seq<Machine>, k: nat)
    requires Run(run) && k < |run| && RoundStart(run[k])
    ensures Clean(run[k])
  {
    RunInv(run, k);
    assert CpuPairInv(run[k], 0) && CpuPairInv(run[k], 1);
  }

  /** An interleaving in which a round may also be started without a refresh. */
  ghost predicate LooseRun(run: seq<Machine>) {
    && |run| > 0 && Init(run[0])
    && forall k :: 0 < k < |run| ==> LooseNext(run[k - 1], run[k])
  }

  ghost predicate LooseNext(m: Machine, m': Machine) {
    Shape(m) && exists s :: Enabled(m, s) && m' == Apply(m, s)
  }

  lemma LooseExtend(run: seq<Machine>, s: Step) returns (run': seq<Machine>)
    requires LooseRun(run) && Shape(Last(run)) && Enabled(Last(run), s)
    ensures LooseRun(run') && Last(run') == Apply(Last(run), s)
  {
    assert LooseNext(Last(run), Apply(Last(run), s));
    run' := run + [Apply(Last(run), s)];
  }

  /** The command `s` of a vCPU in the guest, and its way back through wait_race. */
  lemma Command(run: seq<Machine>, s: Step) returns (run': seq<Machine>)
    requires LooseRun(run) && Shape(Last(run)) && Enabled(Last(run), s)
    requires s.Refresh? || s.Start? || s.Restart? || s.End?
    requires !Apply(Last(run), s).cpu[s.i].waitRace
    ensures LooseRun(run')
    ensures var m := Apply(Last(run), s);
            Last(run') == Put(m, s.i, ClearStale(m.cpu[s.i]), Guest, m.hist[s.i])
  {
    run' := LooseExtend(run, s);
    run' := LooseExtend(run', EnterWait(s.i, [0, 0, 0, 0]));
  }

  const IDLE: Vcpu := Vcpu(PhaseUnreached, false, false, 0, 0, false, false, false)

  function Pair(i: Cpu, c: Vcpu, h: History, d: Vcpu, g: History, ready: bool): Machine {
    if i == 0 then Machine([c, d], [Guest, Guest], [h, g], false, ready)
    else Machine([d, c], [Guest, Guest], [g, h], false, ready)
  }

  lemma BothRefreshed(i: Cpu) returns (run: seq<Machine>)
    ensures LooseRun(run)
    ensures Last(run) == Pair(i, IDLE, Unplayed(Refreshed), IDLE, Unplayed(Refreshed), true)
  {
    run := [Pair(i, IDLE, Unplayed(Fresh), IDLE, Unplayed(Fresh), false)];
    run := Command(run, Refresh(i));
    assert Last(run) == Pair(i, IDLE, Unplayed(Refreshed), IDLE, Unplayed(Fresh), false);
    run := Command(run, Refresh(Opponent(i)));
  }

  /** The first round of two vCPUs begins. */
  lemma FirstRound(i: Cpu) returns (run: seq<Machine>)
    ensures LooseRun(run)
    ensures Last(run) == Pair(i, StartCpu(IDLE), Unplayed(Started), StartCpu(IDLE), Unplayed(Started), true)
  {
    run := BothRefreshed(i);
    run := Command(run, Start(i));
    assert Last(run) == Pair(i, StartCpu(IDLE), Unplayed(Started), IDLE, Unplayed(Refreshed), true);
    run := Command(run, Start(Opponent(i)));
  }

  /** What vCPU `i` keeps of a round in which it waited in vain for the other. */
  function Waited(operands: seq<nat>): Vcpu
    requires |operands| == MAX_OPERANDS
  {
    Decide(Record(StartCpu(IDLE), FirstAccess(operands, 0)), false).(breakpoint := false)
  }

  /** vCPU `i` alone hits its breakpoint and waits in vain. */
  lemma LonelyWait(i: Cpu, operands: seq<nat>) returns (run: seq<Machine>, h: History)
    requires |operands| == MAX_OPERANDS
    ensures LooseRun(run) && Last(run) == Pair(i, Waited(operands), h, StartCpu(IDLE), Unplayed(Started), true)
    ensures h.stage == Started
  {
    run := FirstRound(i);
    run := LooseExtend(run, Hit(i));
    run := LooseExtend(run, EnterWait(i, operands));
    run := LooseExtend(run, Wake(i, false));
    h := Unplayed(Started).(arrived := true, access := FirstAccess(operands, 0), verdict := Some(false));
  }

  /** Both vCPUs end the round. */
  lemma LonelyRound(i: Cpu, operands: seq<nat>) returns (run: seq<Machine>, h: History, g: History)
    requires |operands| == MAX_OPERANDS
    ensures LooseRun(run) && Last(run) == Pair(i, EndCpu(Waited(operands)), h, EndCpu(StartCpu(IDLE)), g, true)
    ensures h.stage == g.stage == Ended
  {
    run, h := LonelyWait(i, operands);
    run := Command(run, End(i));
    h := h.(stage := Ended, reported := Some(0));
    assert Last(run) == Pair(i, EndCpu(Waited(operands)), h, StartCpu(IDLE), Unplayed(Started), true);
    run := Command(run, End(Opponent(i)));
    g := Unplayed(Started).(stage := Ended, reported := Some(0));
  }

  /** Both vCPUs start the next round without a refresh. */
  lemma NextRound(i: Cpu, operands: seq<nat>) returns (run: seq<Machine>)
    requires |operands| == MAX_OPERANDS
    ensures LooseRun(run)
    ensures var c, d, t := EndCpu(Waited(operands)), EndCpu(StartCpu(IDLE)), Unplayed(Started);
            Last(run) == Pair(i, StartCpu(c), t, StartCpu(d), t, true)
  {
    var c, d, t := EndCpu(Waited(operands)), EndCpu(StartCpu(IDLE)), Unplayed(Started);
    var h, g;
    run, h, g := LonelyRound(i, operands);
    run := Command(run, Restart(i));
    assert Last(run) == Pair(i, StartCpu(c), t, d, g, true);
    run := Command(run, Restart(Opponent(i)));
  }

  /** Whatever vCPU `i` accessed in the last round is still recorded when the next one
      begins without a refresh, so that round can end in two different verdicts. */
  lemma StaleRoundDisagrees(i: Cpu, operands: seq<nat>) returns (run: seq<Machine>)
    requires |operands| == MAX_OPERANDS && FirstAccess(operands, 0).Some?
    ensures LooseRun(run) && RoundStart(Last(run))
    ensures Recorded(Last(run).cpu[i], FirstAccess(operands, 0))
    ensures MayDiffer(Last(run))
  {
    run := NextRound(i, operands);
    FirstAccessNonzero(operands, 0);
    var rest := LeftoverDiffers(Last(run), i, operands);
    assert VerdictsDiffer(Last(rest));
  }

  lemma SameAddressSymmetric(a: Vcpu, b: Vcpu)
    ensures SameAddress(a, b) == SameAddress(b, a)
  {
  }

  /** The globals of hypercall.c, one element per vCPU, with wait_race and the commands
      as they update them. */
  class RaceGlobals {
    const cpu: array<Vcpu>

    ghost predicate Valid() {
      cpu.Length == 2
    }

    /** is_same_address */
    method IsSameAddress() returns (same: bool)
      requires Valid()
      ensures same == SameAddress(cpu[0], cpu[1])
    {
      if cpu[0].writingAddr != 0 && cpu[1].writingAddr != 0 && cpu[0].writingAddr == cpu[1].writingAddr {
        return true;
      } else if cpu[0].writingAddr != 0 && cpu[1].readingAddr != 0 && cpu[0].writingAddr == cpu[1].readingAddr {
        return true;
      } else if cpu[0].readingAddr != 0 && cpu[1].writingAddr != 0 && cpu[0].readingAddr == cpu[1].writingAddr {
        return true;
      }
      return false;
    }

    /** The operand loop of wait_race. */
    method RecordAccess(i: Cpu, operands: seq<nat>)
      requires Valid() && |operands| == MAX_OPERANDS
      modifies cpu
      ensures cpu[..] == old(cpu[..])[i := Record(old(cpu[i]), FirstAccess(operands, 0))]
    {
      var k := 0;
      while k < MAX_OPERANDS
        invariant k <= MAX_OPERANDS
        invariant FirstAccess(operands, k) == FirstAccess(operands, 0)
        invariant cpu[..] == old(cpu[..])
      {
        if operands[k] != 0 {
          if k != MAX_OPERANDS - 1 {
            cpu[i] := cpu[i].(readingAddr := operands[k], writingAddr := 0);
          } else {
            cpu[i] := cpu[i].(writingAddr := operands[k], readingAddr := 0);
          }
          return;
        }
        k := k + 1;
      }
    }

    /** The body of wait_race for a vCPU whose access has been recorded. */
    method ArriveAt(i: Cpu) returns (asleep: bool)
      requires Valid()
      modifies cpu
      ensures cpu[..] == old(cpu[..])[i := Arrive(old(cpu[i]), old(cpu[Opponent(i)]))]
      ensures asleep <==> cpu[i].phase == PhaseSleeping
    {
      var o := Opponent(i);
      SameAddressSymmetric(cpu[0], cpu[1]);
      var bothHit, same := false, false;
      if cpu[o].phase == PhaseSleeping {
        bothHit := true;
        same := IsSameAddress();
        cpu[i] := cpu[i].(phase := PhasePassed);
      } else if cpu[o].phase == PhasePassed {
        cpu[i] := cpu[i].(phase := PhasePassed);
        bothHit := false;
        same := IsSameAddress();
      } else {
        cpu[i] := cpu[i].(phase := PhaseSleeping);
        return true;
      }
      cpu[i] := cpu[i].(waitRace := false);
      cpu[i] := cpu[i].(isRace := bothHit && same);
      return false;
    }

    /** wait_race up to releasing the lock, or to falling asleep in the timed wait. */
    method WaitRaceEnter(i: Cpu, operands: seq<nat>, ghost m: Machine) returns (asleep: bool)
      requires Valid() && |operands| == MAX_OPERANDS
      requires Shape(m) && m.cpu == cpu[..]
      modifies cpu
      ensures cpu[..] == Enter(m, i, operands).cpu
      ensures asleep <==> Enter(m, i, operands).pc[i] == Asleep
    {
      asleep := false;
      if cpu[i].isRefresh {
        cpu[i] := cpu[i].(isRefresh := false);
        cpu[i] := cpu[i].(writingAddr := 0, readingAddr := 0);
        cpu[i] := cpu[i].(phase := PhaseUnreached);
      }
      assert cpu[..] == m.cpu[i := ClearStale(m.cpu[i])];
      if cpu[i].waitRace {
        RecordAccess(i, operands);
        assert cpu[..] == m.cpu[i := Record(ClearStale(m.cpu[i]), FirstAccess(operands, 0))];
        asleep := ArriveAt(i);
      }
    }

    /** The rest of wait_race, after the timed wait returned `signalled`. */
    method WaitRaceWake(i: Cpu, signalled: bool, ghost m: Machine)
      requires Valid()
      requires Shape(m) && m.cpu == cpu[..]
      modifies cpu
      ensures cpu[..] == WakeUp(m, i, signalled).cpu
    {
      var bothHit := signalled;
      if cpu[Opponent(i)].phase == PhasePassed {
        bothHit := true;
      }
      SameAddressSymmetric(cpu[0], cpu[1]);
      var same := IsSameAddress();
      cpu[i] := cpu[i].(phase := PhasePassed);
      cpu[i] := cpu[i].(waitRace := false);
      cpu[i] := cpu[i].(isRace := bothHit && same);
    }

    /** hypercall_command_start: -1 when the vCPU is not ready. */
    method CommandStart(i: Cpu) returns (rax: int)
      requires Valid()
      modifies cpu
      ensures rax == if old(cpu[i]).running then -1 else 0
      ensures cpu[..] == if old(cpu[i]).running then old(cpu[..]) else old(cpu[..])[i := StartCpu(old(cpu[i]))]
    {
      if cpu[i].running {
        return -1;
      }
      cpu[i] := cpu[i].(isRace := false);
      cpu[i] := cpu[i].(phase := PhaseUnreached);
      cpu[i] := cpu[i].(breakpoint := true);
      cpu[i] := cpu[i].(running := true);
      return 0;
    }

    /** hypercall_command_end: the verdict, or -1 when no program is running. */
    method CommandEnd(i: Cpu) returns (rax: int)
      requires Valid()
      modifies cpu
      ensures rax == if !old(cpu[i]).running then -1 else if old(cpu[i]).isRace then 1 else 0
      ensures cpu[..] == if !old(cpu[i]).running then old(cpu[..]) else old(cpu[..])[i := EndCpu(old(cpu[i]))]
    {
      if !cpu[i].running {
        return -1;
      }
      cpu[i] := cpu[i].(breakpoint := false);
      rax := if cpu[i].isRace then 1 else 0;
      cpu[i] := cpu[i].(running := false);
    }

    /** hypercall_command_refresh */
    method CommandRefresh(i: Cpu)
      requires Valid()
      modifies cpu
      ensures cpu[..] == old(cpu[..])[i := RefreshCpu(old(cpu[i]))]
    {
      cpu[i] := cpu[i].(running := false);
      cpu[i] := cpu[i].(waitRace := false);
      cpu[i] := cpu[i].(isRefresh := true);
      cpu[i] := cpu[i].(breakpoint := false);
    }
  }
}
