/** The notify_me / notified / event-notifier handshake of async.c and aio-posix.c: one
    thread in blocking aio_poll, any number of threads that schedule, cancel and delete
    bottom halves, interleaved at every access to the flags that decide a wake-up. */
module AioWakeup {

  type Bh = nat

  /** Where the polling thread is in aio_poll. */
  datatype Poller =
    | Outside
    | Armed                                // after atomic_add(&ctx->notify_me, 2)
    | Scan(rest: set<Bh>, timed: bool)     // inside aio_compute_timeout
    | ScanLive(bh: Bh, rest: set<Bh>, timed: bool)       // not deleted, before reading scheduled
    | ScanScheduled(bh: Bh, rest: set<Bh>, timed: bool)  // scheduled, before reading idle
    | Polling                              // in poll() with a timeout, or with timeout 0
    | Blocked                              // in poll() without a timeout
    | Returned                             // poll() has returned
    | Disarmed                             // after atomic_sub(&ctx->notify_me, 2)
    | MustClear                            // in aio_notify_accept, notified was set
    | Dispatch(todo: set<Bh>)              // inside aio_bh_poll
    | DispatchLive(bh: Bh, todo: set<Bh>)  // not deleted, before atomic_xchg(&bh->scheduled, 0)
    | DispatchTaken(bh: Bh, todo: set<Bh>) // the exchange returned 1, before clearing idle

  /** Where a thread is in qemu_bh_schedule and aio_notify, qemu_bh_schedule_idle or
      qemu_bh_delete. */
  datatype Thread =
    | Free
    | Scheduling(bh: Bh)   // idle cleared, before atomic_xchg(&bh->scheduled, 1)
    | Notifying            // the exchange returned 0, before reading notify_me
    | Setting              // notify_me was non-zero, before event_notifier_set
    | Marking              // before atomic_mb_set(&ctx->notified, true)
    | Idling(bh: Bh)       // idle set, before atomic_mb_set(&bh->scheduled, 1)
    | Deleting(bh: Bh)     // scheduled cleared, before setting deleted

  /** `live` are the bottom halves on the list and not deleted. `idled` are those whose
      pending request began with qemu_bh_schedule_idle. */
  datatype State = State(
    notifyMe: nat, notified: bool, notifier: bool,
    live: set<Bh>, scheduled: set<Bh>, idle: set<Bh>, idled: set<Bh>,
    poller: Poller, threads: seq<Thread>)

  datatype Step =
    | NewBh(b: Bh) | CancelBh(b: Bh) | BeginDelete(t: nat, b: Bh) | EndDelete(t: nat)
    | BeginIdle(t: nat, b: Bh) | EndIdle(t: nat)
    | BeginSchedule(t: nat, b: Bh) | Exchange(t: nat) | ReadNotifyMe(t: nat) | SetNotifier(t: nat)
    | MarkNotified(t: nat)
    | Arm | BeginScan | ScanBh(b: Bh) | ReadScheduled | ReadIdle | EndScan(deadline: bool) | PollReturns | Disarm
    | PollNonBlocking | AcceptTest | AcceptClear | DispatchBh(b: Bh) | TakeBh | ClearIdle | EndDispatch

  predicate ThreadAt(s: State, t: nat) {
    t < |s.threads|
  }

  predicate Enabled(s: State, step: Step) {
    match step
    case NewBh(b) => b !in s.live
    case CancelBh(b) => true
    case BeginDelete(t, b) => ThreadAt(s, t) && s.threads[t].Free?
    case EndDelete(t) => ThreadAt(s, t) && s.threads[t].Deleting?
    case BeginIdle(t, b) => ThreadAt(s, t) && s.threads[t].Free?
    case EndIdle(t) => ThreadAt(s, t) && s.threads[t].Idling?
    case BeginSchedule(t, b) => ThreadAt(s, t) && s.threads[t].Free?
    case Exchange(t) => ThreadAt(s, t) && s.threads[t].Scheduling?
    case ReadNotifyMe(t) => ThreadAt(s, t) && s.threads[t].Notifying?
    case SetNotifier(t) => ThreadAt(s, t) && s.threads[t].Setting?
    case MarkNotified(t) => ThreadAt(s, t) && s.threads[t].Marking?
    case Arm => s.poller.Outside?
    case BeginScan => s.poller.Armed?
    case ScanBh(b) => s.poller.Scan? && b in s.poller.rest
    case ReadScheduled => s.poller.ScanLive?
    case ReadIdle => s.poller.ScanScheduled?
    case EndScan(deadline) => s.poller.Scan? && s.poller.rest == {}
    case PollReturns => s.poller.Polling? || s.poller.Blocked?
    case Disarm => s.poller.Returned?
    case PollNonBlocking => s.poller.Outside?
    case AcceptTest => s.poller.Disarmed?
    case AcceptClear => s.poller.MustClear?
    case DispatchBh(b) => s.poller.Dispatch? && b in s.poller.todo
    case TakeBh => s.poller.DispatchLive?
    case ClearIdle => s.poller.DispatchTaken?
    case EndDispatch => s.poller.Dispatch? && s.poller.todo == {}
  }

  function Forget(s: State, b: Bh): State {
    s.(scheduled := s.scheduled - {b}, idled := s.idled - {b})
  }

  function Apply(s: State, step: Step): State
    requires Enabled(s, step)
  {
    match step
    // aio_bh_new: a zeroed bottom half goes to the head of the list
    case NewBh(b) => Forget(s, b).(live := s.live + {b}, idle := s.idle - {b})
    // qemu_bh_cancel, qemu_bh_delete
    case CancelBh(b) => Forget(s, b)
    case BeginDelete(t, b) => Forget(s, b).(threads := s.threads[t := Deleting(b)])
    case EndDelete(t) => s.(live := s.live - {s.threads[t].bh}, threads := s.threads[t := Free])
    // qemu_bh_schedule_idle: no notification
    case BeginIdle(t, b) => s.(idle := s.idle + {b}, threads := s.threads[t := Idling(b)])
    case EndIdle(t) =>
      var b := s.threads[t].bh;
      s.(scheduled := s.scheduled + {b}, idled := if b in s.scheduled then s.idled else s.idled + {b},
         threads := s.threads[t := Free])
    // qemu_bh_schedule and aio_notify
    case BeginSchedule(t, b) => s.(idle := s.idle - {b}, threads := s.threads[t := Scheduling(b)])
    case Exchange(t) =>
      var b := s.threads[t].bh;
      s.(scheduled := s.scheduled + {b},
         threads := s.threads[t := if b in s.scheduled then Free else Notifying])
    case ReadNotifyMe(t) => s.(threads := s.threads[t := if s.notifyMe != 0 then Setting else Free])
    case SetNotifier(t) => s.(notifier := true, threads := s.threads[t := Marking])
    case MarkNotified(t) => s.(notified := true, threads := s.threads[t := Free])
    // aio_poll
    case Arm => s.(notifyMe := s.notifyMe + 2, poller := Armed)
    case BeginScan => s.(poller := Scan(s.live, false))
    case ScanBh(b) =>
      var rest, timed := s.poller.rest - {b}, s.poller.timed;
      s.(poller := if b in s.live then ScanLive(b, rest, timed) else Scan(rest, timed))
    case ReadScheduled =>
      var ScanLive(b, rest, timed) := s.poller;
      s.(poller := if b in s.scheduled then ScanScheduled(b, rest, timed) else Scan(rest, timed))
    case ReadIdle => s.(poller := if s.poller.bh in s.idle then Scan(s.poller.rest, true) else Polling)
    case EndScan(deadline) => s.(poller := if s.poller.timed || deadline then Polling else Blocked)
    case PollReturns => s.(poller := Returned)
    case Disarm => s.(notifyMe := if s.notifyMe >= 2 then s.notifyMe - 2 else 0, poller := Disarmed)
    case PollNonBlocking => s.(poller := Disarmed)
    // aio_notify_accept
    case AcceptTest => s.(notified := false, poller := if s.notified then MustClear else Dispatch(s.live))
    case AcceptClear => s.(notifier := false, poller := Dispatch(s.live))
    // aio_bh_poll
    case DispatchBh(b) =>
      var todo := s.poller.todo - {b};
      s.(poller := if b in s.live then DispatchLive(b, todo) else Dispatch(todo))
    case TakeBh =>
      var DispatchLive(b, todo) := s.poller;
      if b in s.scheduled then Forget(s, b).(poller := DispatchTaken(b, todo)) else s.(poller := Dispatch(todo))
    case ClearIdle => s.(idle := s.idle - {s.poller.bh}, poller := Dispatch(s.poller.todo))
    case EndDispatch => s.(poller := Outside)
  }

  ghost predicate Next(s: State, s': State) {
    exists step :: Enabled(s, step) && s' == Apply(s, step)
  }

  /** A fresh context: nothing scheduled, nobody in aio_poll or aio_notify. */
  predicate Init(s: State) {
    && s.notifyMe == 0 && !s.notified && !s.notifier
    && s.scheduled == {} && s.idled == {} && s.poller == Outside
    && forall t :: 0 <= t < |s.threads| ==> s.threads[t] == Free
  }

  /** Some thread has scheduled a bottom half and will set the notifier if the poller
      still needs it. */
  predicate OnTheWay(s: State) {
    exists t :: 0 <= t < |s.threads| && (s.threads[t].Notifying? || s.threads[t].Setting?)
  }

  /** The bottom half must get the poller's attention. */
  predicate Pending(s: State, b: Bh) {
    b in s.live && b in s.scheduled && b !in s.idled
  }

  /** Bottom halves the poller has already passed, or never looked at, this time round. */
  predicate Passed(s: State, b: Bh) {
    match s.poller
    case Scan(rest, timed) => !timed && b !in rest
    case ScanLive(c, rest, timed) => !timed && b !in rest && b != c
    case Blocked => true
    case _ => false
  }

  /** The poller has announced itself in notify_me. */
  predicate InPoll(p: Poller) {
    p.Armed? || p.Scan? || p.ScanLive? || p.ScanScheduled? || p.Polling? || p.Blocked? || p.Returned?
  }

  ghost predicate Inv(s: State) {
    && s.notifyMe == (if InPoll(s.poller) then 2 else 0)
    && s.idled <= s.scheduled
    && forall b :: Pending(s, b) && Passed(s, b) ==> s.notifier || OnTheWay(s)
  }

  /** Every step but the clearing keeps a set notifier, and a thread on its way either
      stays on its way or sets it while the poller is armed. */
  lemma NoticeKept(s: State, step: Step)
    requires Enabled(s, step) && s.notifyMe != 0 && !step.AcceptClear?
    requires s.notifier || OnTheWay(s)
    ensures Apply(s, step).notifier || OnTheWay(Apply(s, step))
  {
    if !s.notifier {
      var t :| 0 <= t < |s.threads| && (s.threads[t].Notifying? || s.threads[t].Setting?);
      var s' := Apply(s, step);
      assert s'.notifier || s'.threads[t].Notifying? || s'.threads[t].Setting?;
    }
  }

  lemma NextInv(s: State, step: Step)
    requires Inv(s) && Enabled(s, step)
    ensures Inv(Apply(s, step))
  {
    var s' := Apply(s, step);
    forall b | Pending(s', b) && Passed(s', b) ensures s'.notifier || OnTheWay(s') {
      if Pending(s, b) && Passed(s, b) {
        NoticeKept(s, step);
      } else if step.Exchange? {
        assert s'.threads[step.t].Notifying?;
      }
    }
  }

  ghost predicate Run(run: seq<State>) {
    && |run| > 0 && Init(run[0])
    && forall k :: 0 < k < |run| ==> Next(run[k - 1], run[k])
  }

  lemma {:induction false} RunInv(run: seq<State>, k: nat)
    requires Run(run) && k < |run|
    ensures Inv(run[k])
  {
    if k > 0 {
      RunInv(run, k - 1);
      assert Next(run[k - 1], run[k]);
      var step :| Enabled(run[k - 1], step) && run[k] == Apply(run[k - 1], step);
      NextInv(run[k - 1], step);
    }
  }

  /** No lost wake-up: while the poller blocks without a timeout, a pending bottom half
      means that the notifier is set or a thread is on its way to set it. */
  lemma NoLostWakeup(run: seq<State>, k: nat, b: Bh)
    requires Run(run) && k < |run|
    requires run[k].poller.Blocked? && Pending(run[k], b)
    ensures run[k].notifier || OnTheWay(run[k])
  {
    RunInv(run, k);
  }

  /** When the poller blocks and nobody is about to wake it, the requests that wait are
      exactly those that began with qemu_bh_schedule_idle. */
  lemma LostExactlyIdled(run: seq<State>, k: nat, b: Bh)
    requires Run(run) && k < |run| && b in run[k].live
    requires run[k].poller.Blocked? && !run[k].notifier && !OnTheWay(run[k])
    ensures b in run[k].scheduled <==> b in run[k].idled
  {
    RunInv(run, k);
    if b in run[k].scheduled && b !in run[k].idled {
      NoLostWakeup(run, k, b);
    }
  }

  /** A set notifier will be seen: `notified` is set, or a thread is about to set it, or the poller
      is about to clear the notifier. */
  ghost predicate Marked(s: State) {
    s.notifier ==> s.notified || s.poller.MustClear? || exists t :: 0 <= t < |s.threads| && s.threads[t].Marking?
  }

  predicate NobodyMarks(s: State) {
    forall t :: 0 <= t < |s.threads| ==> !s.threads[t].Marking?
  }

  lemma MarkedKept(s: State, step: Step)
    requires Marked(s) && Enabled(s, step)
    ensures Marked(Apply(s, step))
  {
    var s' := Apply(s, step);
    if step.SetNotifier? {
      assert s'.threads[step.t].Marking?;
    } else if t :| 0 <= t < |s.threads| && s.threads[t].Marking? {
      assert s'.notified || s'.threads[t].Marking?;
    }
  }

  /** In every run a set notifier is never forgotten. */
  lemma {:induction false} NotifierMarked(run: seq<State>, k: nat)
    requires Run(run) && k < |run|
    ensures Marked(run[k])
  {
    if k > 0 {
      NotifierMarked(run, k - 1);
      assert Next(run[k - 1], run[k]);
      var step :| Enabled(run[k - 1], step) && run[k] == Apply(run[k - 1], step);
      MarkedKept(run[k - 1], step);
    }
  }

  predicate NobodyNotifies(s: State) {
    !s.notifier && !s.notified && forall t :: 0 <= t < |s.threads| ==> !s.threads[t].Setting? && !s.threads[t].Marking?
  }

  /** As long as nobody polls, nobody pays for a notification. */
  lemma {:induction false} NoNeedlessNotice(run: seq<State>, k: nat)
    requires Run(run) && k < |run| && forall j :: 0 <= j <= k ==> run[j].notifyMe == 0
    ensures NobodyNotifies(run[k])
  {
    if k > 0 {
      NoNeedlessNotice(run, k - 1);
      assert Next(run[k - 1], run[k]);
      var step :| Enabled(run[k - 1], step) && run[k] == Apply(run[k - 1], step);
      NoNoticeStep(run[k - 1], step);
    }
  }

  lemma NoNoticeStep(s: State, step: Step)
    requires NobodyNotifies(s) && s.notifyMe == 0 && Enabled(s, step)
    ensures NobodyNotifies(Apply(s, step))
  {
  }

  /** aio_compute_timeout has seen a scheduled bottom half, idle or not, or a deadline. */
  predicate SawWork(p: Poller) {
    p.ScanScheduled? || p.Polling? || ((p.Scan? || p.ScanLive?) && p.timed)
  }

  /** Then poll() gets a timeout: the poller does not block before it returns. */
  lemma SawWorkPolls(s: State, step: Step)
    requires SawWork(s.poller) && Enabled(s, step) && !step.PollReturns?
    ensures SawWork(Apply(s, step).poller)
  {
  }

  /** And a live bottom half that is scheduled when the poller looks at it is seen. */
  lemma WorkIsSeen(run: seq<State>, b: Bh) returns (run': seq<State>)
    requires Run(run) && Last(run).poller.Scan? && b in Last(run).poller.rest
    requires b in Last(run).live && b in Last(run).scheduled
    ensures Run(run') && run < run' && SawWork(Last(run').poller)
    ensures b !in Last(run).idle ==> Last(run').poller == Polling
  {
    run' := Extend(run, ScanBh(b));
    run' := Extend(run', ReadScheduled);
    run' := Extend(run', ReadIdle);
  }

  function Last(run: seq<State>): State
    requires |run| > 0
  {
    run[|run| - 1]
  }

  lemma Extend(run: seq<State>, step: Step) returns (run': seq<State>)
    requires Run(run) && Enabled(Last(run), step)
    ensures Run(run') && Last(run') == Apply(Last(run), step) && run < run'
  {
    run' := run + [Apply(Last(run), step)];
    forall k | 0 < k < |run'| ensures Next(run'[k - 1], run'[k]) {
      if k < |run| {
        assert Next(run[k - 1], run[k]);
      }
    }
  }

  lemma ScanningPoller() returns (run: seq<State>)
    ensures Run(run) && Last(run) == State(2, false, false, {0}, {}, {}, {}, Scan({0}, false), [Free])
  {
    run := [State(0, false, false, {}, {}, {}, {}, Outside, [Free])];
    run := Extend(run, NewBh(0));
    assert Last(run) == State(0, false, false, {0}, {}, {}, {}, Outside, [Free]);
    run := Extend(run, Arm);
    run := Extend(run, BeginScan);
  }

  /** A poller that scanned bottom half 0 before it was scheduled, and blocked. */
  lemma BlockedPoller() returns (run: seq<State>)
    ensures Run(run) && Last(run) == State(2, false, false, {0}, {}, {}, {}, Blocked, [Free])
  {
    run := ScanningPoller();
    run := Extend(run, ScanBh(0));
    assert {0} - {0} == {};
    assert Last(run) == State(2, false, false, {0}, {}, {}, {}, ScanLive(0, {}, false), [Free]);
    run := Extend(run, ReadScheduled);
    assert Last(run) == State(2, false, false, {0}, {}, {}, {}, Scan({}, false), [Free]);
    run := Extend(run, EndScan(false));
  }

  /** The exclusion of `idled` is needed: whenever the poller blocks and nobody is about to
      wake it, qemu_bh_schedule_idle notifies nobody, and a qemu_bh_schedule after it finds
      the bottom half scheduled already and stays silent too. */
  lemma IdleLosesWakeup(run: seq<State>, b: Bh, t: nat) returns (run': seq<State>)
    requires Run(run) && Last(run).poller.Blocked? && !Last(run).notifier && !OnTheWay(Last(run))
    requires b in Last(run).live && b !in Last(run).scheduled && ThreadAt(Last(run), t) && Last(run).threads[t].Free?
    ensures Run(run') && run < run'
    ensures var s := Last(run');
            && s.poller.Blocked? && b in s.live && b in s.scheduled && b !in s.idle
            && !s.notifier && !OnTheWay(s)
  {
    run' := Extend(run, BeginIdle(t, b));
    run' := Extend(run', EndIdle(t));
    run' := Extend(run', BeginSchedule(t, b));
    run' := Extend(run', Exchange(t));
    assert Last(run').threads == Last(run).threads;
  }

  /** Once the schedulers are done, the notifier is set, so poll() returns, and the
      poller alone then takes the bottom half off. */
  lemma WakeupIsServed(run: seq<State>, b: Bh) returns (run': seq<State>)
    requires Run(run)
    requires Last(run).poller.Blocked? && Pending(Last(run), b) && !OnTheWay(Last(run))
    ensures Last(run).notifier
    ensures Run(run') && run < run' && b !in Last(run').scheduled && Last(run').threads == Last(run).threads
    ensures !Last(run').notified && (NobodyMarks(Last(run)) ==> !Last(run').notifier)
  {
    NoLostWakeup(run, |run| - 1, b);
    run' := PollDone(run);
    run' := Extend(run', DispatchBh(b));
    run' := Extend(run', TakeBh);
  }

  /** The poller alone goes from poll() to aio_bh_poll. */
  lemma PollDone(run: seq<State>) returns (run': seq<State>)
    requires Run(run) && Last(run).poller.Blocked?
    ensures Run(run') && run < run'
    ensures var s, s' := Last(run), Last(run');
            && s'.poller == Dispatch(s.live)
            && s'.live == s.live && s'.scheduled == s.scheduled && s'.threads == s.threads
            && !s'.notified && (NobodyMarks(s) ==> !s'.notifier)
  {
    NotifierMarked(run, |run| - 1);
    run' := Extend(run, PollReturns);
    run' := Extend(run', Disarm);
    run' := Extend(run', AcceptTest);
    if Last(run').poller.MustClear? {
      run' := Extend(run', AcceptClear);
    }
  }

  // What each call does when nobody interferes

  /** aio_bh_new gives a bottom half that is on the list and waits for nothing, whatever an earlier one
      in the same place was. */
  lemma Created(run: seq<State>, b: Bh) returns (run': seq<State>)
    requires Run(run) && b !in Last(run).live
    ensures Run(run') && run < run' && Last(run').live == Last(run).live + {b}
    ensures b !in Last(run').scheduled && b !in Last(run').idle
  {
    run' := Extend(run, NewBh(b));
  }

  /** qemu_bh_schedule leaves the bottom half scheduled and not idle, and rings the notifier if and only
      if the bottom half was not scheduled before and somebody polls. */
  lemma Scheduled(run: seq<State>, t: nat, b: Bh) returns (run': seq<State>)
    requires Run(run) && ThreadAt(Last(run), t) && Last(run).threads[t].Free? && NobodyNotifies(Last(run))
    ensures Run(run') && run < run' && Last(run').threads == Last(run).threads
    ensures b in Last(run').scheduled && b !in Last(run').idle && Last(run').live == Last(run).live
    ensures var rings := b !in Last(run).scheduled && Last(run).notifyMe != 0;
            Last(run').notifier == rings && Last(run').notified == rings
  {
    run' := Extend(run, BeginSchedule(t, b));
    run' := Extend(run', Exchange(t));
    if Last(run').threads[t].Notifying? {
      run' := Extend(run', ReadNotifyMe(t));
    }
    if Last(run').threads[t].Setting? {
      run' := Extend(run', SetNotifier(t));
      run' := Extend(run', MarkNotified(t));
    }
  }

  /** qemu_bh_schedule_idle marks it idle and rings for nobody. */
  lemma ScheduledIdle(run: seq<State>, t: nat, b: Bh) returns (run': seq<State>)
    requires Run(run) && ThreadAt(Last(run), t) && Last(run).threads[t].Free?
    ensures Run(run') && run < run' && Last(run').threads == Last(run).threads
    ensures b in Last(run').scheduled && b in Last(run').idle && Last(run').live == Last(run).live
    ensures Last(run').notifier == Last(run).notifier && Last(run').notified == Last(run).notified
  {
    run' := Extend(run, BeginIdle(t, b));
    run' := Extend(run', EndIdle(t));
  }

  /** qemu_bh_cancel takes the request back, qemu_bh_delete the bottom half as well. */
  lemma Cancelled(run: seq<State>, b: Bh) returns (run': seq<State>)
    requires Run(run)
    ensures Run(run') && run < run' && Last(run').scheduled == Last(run).scheduled - {b}
    ensures Last(run').live == Last(run).live
  {
    run' := Extend(run, CancelBh(b));
  }

  lemma Deleted(run: seq<State>, t: nat, b: Bh) returns (run': seq<State>)
    requires Run(run) && ThreadAt(Last(run), t) && Last(run).threads[t].Free?
    ensures Run(run') && run < run' && Last(run').threads == Last(run).threads
    ensures Last(run').scheduled == Last(run).scheduled - {b} && Last(run').live == Last(run).live - {b}
  {
    run' := Extend(run, BeginDelete(t, b));
    run' := Extend(run', EndDelete(t));
  }

  /** One bottom half of aio_bh_poll: run if it is live and scheduled, and then no longer idle. */
  lemma DispatchOne(run: seq<State>, b: Bh) returns (run': seq<State>)
    requires Run(run) && Last(run).poller.Dispatch? && b in Last(run).poller.todo
    ensures Run(run') && run < run' && Last(run').poller == Dispatch(Last(run).poller.todo - {b})
    ensures var s, s' := Last(run), Last(run');
            && s'.live == s.live && s'.threads == s.threads
            && s'.scheduled == s.scheduled - ({b} * s.live)
            && s'.idle == s.idle - ({b} * s.live * s.scheduled)
  {
    var s := Last(run);
    run' := Extend(run, DispatchBh(b));
    if b in s.live {
      run' := Extend(run', TakeBh);
      if b in s.scheduled {
        run' := Extend(run', ClearIdle);
      }
    }
  }

  /** aio_bh_poll runs every live bottom half it finds scheduled, and comes to its end. */
  lemma {:induction false} DispatchAll(run: seq<State>) returns (run': seq<State>)
    requires Run(run) && Last(run).poller.Dispatch?
    ensures Run(run') && run < run' && Last(run').poller == Outside
    ensures var s, s' := Last(run), Last(run');
            && s'.live == s.live && s'.threads == s.threads
            && s'.scheduled == s.scheduled - s.poller.todo * s.live
            && s'.idle == s.idle - s.poller.todo * s.live * s.scheduled
    decreases Last(run).poller.todo
  {
    var todo := Last(run).poller.todo;
    if todo == {} {
      run' := Extend(run, EndDispatch);
    } else {
      var b :| b in todo;
      run' := DispatchOne(run, b);
      run' := DispatchAll(run');
    }
  }

  /** Hence one turn of a woken poller serves all that was scheduled, idle or not. */
  lemma AllServed(run: seq<State>) returns (run': seq<State>)
    requires Run(run) && Last(run).poller.Blocked?
    ensures Run(run') && run < run' && Last(run').poller == Outside && Last(run').notifyMe == 0
    ensures Last(run').live == Last(run).live && Last(run').scheduled == Last(run).scheduled - Last(run).live
  {
    run' := PollDone(run);
    run' := DispatchAll(run');
    RunInv(run', |run'| - 1);
  }
}
