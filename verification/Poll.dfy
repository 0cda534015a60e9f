/**
 * The handshake that keeps the background poll thread off the JTAG link while a debugger command
 * runs: `dbg_poll_task` against `poll_start` and `poll_stop`, interleaved statement by statement.
 *
 * Any number of threads issue commands, one at a time: they queue on the `busy` mutex, so at most one
 * of them, the caller, is ever inside `poll_start` or `poll_stop`. `poll_mutex` and `poll_cond`
 * behave as the kernel's do: unlocking hands a mutex to the thread queued on it, and a thread woken
 * from a condition variable has to lock the mutex again before its wait returns.
 */
module Poll {

  datatype Op = Start | Stop

  /** What `ice_poll` reports (ICE_ST_HALT, ICE_ST_FAULT). */
  datatype Status = Status(halt: bool, fault: bool)

  /** Where the poll thread goes on once it has the mutex. */
  datatype Resume = AtTop | AtWait | AtStop(st: Status)

  /** The next statement of the poll thread. */
  datatype Poller =
    | PLock(next: Resume)        // about to lock poll_mutex
    | PQueued(next: Resume)      // queued on poll_mutex
    | PTest                      // if (!poll_enabled)
    | PWaitTest                  // while (!poll_start_req)
    | PWaiting                   // asleep on poll_cond
    | PEnable                    // poll_enabled = true
    | PSignalOn                  // signal poll_cond
    | PUnlock                    // unlock, then poll
    | PUnlockSleep               // unlock, then sleep
    | PSleep                     // sleep(100)
    | PPoll                      // ice_poll()
    | PStopTest(st: Status)      // if (poll_stop_req) poll_enabled = false
    | PSignalOff(st: Status)     // signal poll_cond
    | PHaltTest(st: Status)      // if (halt) poll_enabled = false
    | PFaultTest(st: Status)     // if (fault) poll_enabled = false

  /** The next statement of the thread that holds `busy`. */
  datatype Caller =
    | CFree                      // outside poll_start and poll_stop
    | CLock(op: Op)              // about to lock poll_mutex
    | CQueued(op: Op)            // queued on poll_mutex
    | CTest(op: Op)              // if (!poll_enabled), if (poll_enabled)
    | CRequest(op: Op)           // poll_start_req = true, poll_stop_req = true
    | CSignal                    // signal poll_cond (poll_start only)
    | CWait(op: Op)              // go to sleep on poll_cond
    | CWaiting(op: Op)           // asleep on poll_cond
    | CWoken(op: Op)             // woken, about to lock poll_mutex again
    | CRequeued(op: Op)          // woken, queued on poll_mutex
    | CRetest(op: Op)            // while (!poll_enabled), while (poll_enabled)
    | CClear(op: Op)             // poll_start_req = false, poll_stop_req = false
    | CUnlock(op: Op)            // unlock and return

  datatype Owner = Nobody | ThePoller | TheCaller

  datatype State = State(
    p: Poller,
    busy: bool,                  // some thread holds `busy`
    c: Caller,                   // where that thread is
    mutex: Owner,                // poll_mutex
    enabled: bool,               // poll_enabled
    startReq: bool,              // poll_start_req
    stopReq: bool,               // poll_stop_req
    quiet: bool                  // poll_stop has returned, and poll_start has not been called since
  )

  const INIT := State(PLock(AtTop), false, CFree, Nobody, false, false, false, false)

  datatype Step =
    | Take                       // a command gets `busy`
    | Drop                       // the command is over
    | Call(op: Op)               // the command calls poll_start or poll_stop
    | Skip                       // it calls poll_start while not RUNNING, or with polling configured off
    | PStep(st: Status)          // the poll thread's next statement; st is what ice_poll reports
    | CStep                      // the caller's next statement

  // ---------------------------------------------------------------- the kernel's mutex and condition

  function Resumed(next: Resume): Poller {
    match next
    case AtTop => PTest
    case AtWait => PWaitTest
    case AtStop(st) => PStopTest(st)
  }

  function PollerLocks(s: State, next: Resume): State {
    if s.mutex == Nobody then s.(p := Resumed(next), mutex := ThePoller) else s.(p := PQueued(next))
  }

  function CallerLocks(s: State, held: Caller, queued: Caller): State {
    if s.mutex == Nobody then s.(c := held, mutex := TheCaller) else s.(c := queued)
  }

  /** Unlocking hands the mutex over to the other thread if that is queued on it. */
  function PollerUnlocks(s: State): State {
    match s.c
    case CQueued(op) => s.(mutex := TheCaller, c := CTest(op))
    case CRequeued(op) => s.(mutex := TheCaller, c := CRetest(op))
    case _ => s.(mutex := Nobody)
  }

  function CallerUnlocks(s: State): State {
    match s.p
    case PQueued(next) => s.(mutex := ThePoller, p := Resumed(next))
    case _ => s.(mutex := Nobody)
  }

  function WakeCaller(s: State): State {
    if s.c.CWaiting? then s.(c := CWoken(s.c.op)) else s
  }

  function WakePoller(s: State): State {
    if s.p.PWaiting? then s.(p := PLock(AtWait)) else s
  }

  // ---------------------------------------------------------------- steps

  function PollerStep(s: State, st: Status): State
    requires !s.p.PQueued? && !s.p.PWaiting?
  {
    match s.p
    case PLock(next) => PollerLocks(s, next)
    case PTest => s.(p := if s.enabled then PUnlockSleep else PWaitTest)
    case PWaitTest => if s.startReq then s.(p := PEnable) else PollerUnlocks(s).(p := PWaiting)
    case PEnable => s.(enabled := true, p := PSignalOn)
    case PSignalOn => WakeCaller(s).(p := PUnlock)
    case PUnlock => PollerUnlocks(s).(p := PPoll)
    case PUnlockSleep => PollerUnlocks(s).(p := PSleep)
    case PSleep => s.(p := PPoll)
    case PPoll => s.(p := PLock(AtStop(st)))
    case PStopTest(st') => if s.stopReq then s.(enabled := false, p := PSignalOff(st')) else s.(p := PHaltTest(st'))
    case PSignalOff(st') => WakeCaller(s).(p := PHaltTest(st'))
    case PHaltTest(st') => s.(enabled := s.enabled && !st'.halt, p := PFaultTest(st'))
    case PFaultTest(st') => s.(enabled := s.enabled && !st'.fault, p := PTest)
  }

  function CallerStep(s: State): State
    requires !s.c.CFree? && !s.c.CQueued? && !s.c.CWaiting? && !s.c.CRequeued?
  {
    match s.c
    case CLock(op) => CallerLocks(s, CTest(op), CQueued(op))
    case CTest(op) => s.(c := if s.enabled == op.Start? then CUnlock(op) else CRequest(op))
    case CRequest(Start) => s.(startReq := true, c := CSignal)
    case CRequest(Stop) => s.(stopReq := true, c := CWait(Stop))
    case CSignal => WakePoller(s).(c := CWait(Start))
    case CWait(op) => CallerUnlocks(s).(c := CWaiting(op))
    case CWoken(op) => CallerLocks(s, CRetest(op), CRequeued(op))
    case CRetest(op) => s.(c := if s.enabled == op.Start? then CClear(op) else CWait(op))
    case CClear(Start) => s.(startReq := false, c := CUnlock(Start))
    case CClear(Stop) => s.(stopReq := false, c := CUnlock(Stop))
    case CUnlock(op) => CallerUnlocks(s).(c := CFree, quiet := op.Stop?)
  }

  predicate PollerCanStep(s: State) {
    !s.p.PQueued? && !s.p.PWaiting?
  }

  predicate CallerCanStep(s: State) {
    !s.c.CFree? && !s.c.CQueued? && !s.c.CWaiting? && !s.c.CRequeued?
  }

  predicate Enabled(s: State, step: Step) {
    match step
    case Take => !s.busy
    case Drop => s.busy && s.c.CFree?
    case Call(_) => s.busy && s.c.CFree?
    case Skip => s.busy && s.c.CFree?
    case PStep(_) => PollerCanStep(s)
    case CStep => CallerCanStep(s)
  }

  function Apply(s: State, step: Step): State
    requires Enabled(s, step)
  {
    match step
    case Take => s.(busy := true)
    case Drop => s.(busy := false)
    case Call(op) => s.(c := CLock(op), quiet := s.quiet && op.Stop?)
    case Skip => s.(quiet := false)
    case PStep(st) => PollerStep(s, st)
    case CStep => CallerStep(s)
  }

  // ---------------------------------------------------------------- what every step keeps

  predicate PollerHolds(p: Poller) {
    p.PTest? || p.PWaitTest? || p.PEnable? || p.PSignalOn? || p.PUnlock? || p.PUnlockSleep?
    || p.PStopTest? || p.PSignalOff? || p.PHaltTest? || p.PFaultTest?
  }

  predicate CallerHolds(c: Caller) {
    c.CTest? || c.CRequest? || c.CSignal? || c.CWait? || c.CRetest? || c.CClear? || c.CUnlock?
  }

  /** The caller has raised its request and not yet withdrawn it. */
  predicate Asks(c: Caller, op: Op) {
    (c.CSignal? && op.Start?)
    || ((c.CWait? || c.CWaiting? || c.CWoken? || c.CRequeued? || c.CRetest? || c.CClear?) && c.op == op)
  }

  /** The poll thread is using the JTAG link, or on its way to or from it. */
  predicate Polling(p: Poller) {
    p.PSignalOn? || p.PUnlock? || p.PUnlockSleep? || p.PSleep? || p.PPoll? || p.PStopTest?
    || ((p.PLock? || p.PQueued?) && p.next.AtStop?)
  }

  /** It is on its way to sleep, asleep, or on its way back. */
  predicate Resting(p: Poller) {
    p.PWaitTest? || p.PWaiting? || p.PEnable? || p.PSignalOff?
    || ((p.PLock? || p.PQueued?) && !p.next.AtStop?)
  }

  predicate Locks(s: State) {
    && (s.mutex == ThePoller <==> PollerHolds(s.p))
    && (s.mutex == TheCaller <==> CallerHolds(s.c))
    && (s.p.PQueued? ==> s.mutex == TheCaller)
    && (s.c.CQueued? || s.c.CRequeued? ==> s.mutex == ThePoller)
    && (!s.busy ==> s.c.CFree?)
  }

  predicate Requests(s: State) {
    && s.startReq == Asks(s.c, Start)
    && s.stopReq == Asks(s.c, Stop)
    && (s.p.PEnable? || s.p.PSignalOn? || s.p.PUnlock? ==> s.startReq)
    && (s.p.PSignalOff? ==> s.stopReq)
    && (s.p.PUnlockSleep? ==> !s.stopReq)
  }

  predicate Flags(s: State) {
    && (Polling(s.p) ==> s.enabled)
    && (Resting(s.p) ==> !s.enabled)
    && ((s.p.PHaltTest? || s.p.PFaultTest? || s.p.PTest?) && s.stopReq ==> !s.enabled)
  }

  predicate Handshake(s: State) {
    match s.c
    case CRequest(op) => s.enabled == op.Stop?
    case CSignal => !s.enabled
    case CWait(op) => s.enabled == op.Stop? && !s.p.PWaiting?
    case CWaiting(Start) => !s.p.PWaiting? && (s.enabled ==> s.p.PSignalOn?)
    case CWaiting(Stop) => !s.p.PWaiting? && (!s.enabled ==> s.p.PSignalOff?)
    case CWoken(Start) => !s.p.PWaiting? && (s.enabled || PollerHolds(s.p))
    case CWoken(Stop) => !s.enabled && !s.p.PSignalOff?
    case CRequeued(Start) => !s.p.PWaiting?
    case CRequeued(Stop) => !s.enabled && !s.p.PSignalOff?
    case CRetest(op) => s.enabled == op.Start?
    case CClear(op) => s.enabled == op.Start?
    case CUnlock(op) => s.enabled == op.Start?
    case _ => true
  }

  predicate Quiet(s: State) {
    s.quiet ==>
      !s.enabled && (s.c.CFree? || ((s.c.CLock? || s.c.CQueued? || s.c.CTest? || s.c.CUnlock?) && s.c.op.Stop?))
  }

  predicate Inv(s: State) {
    Locks(s) && Requests(s) && Flags(s) && Handshake(s) && Quiet(s)
  }

  lemma PollerLocking(s: State, next: Resume)
    requires Locks(s) && s.p == PLock(next)
    ensures Locks(PollerLocks(s, next))
  {}

  lemma PollerUnlocking(s: State, p: Poller)
    requires Locks(s) && s.mutex == ThePoller && !PollerHolds(p) && !p.PQueued?
    ensures Locks(PollerUnlocks(s).(p := p))
  {}

  lemma PollerGoesOn(s: State, p: Poller, enabled: bool)
    requires Locks(s) && !s.p.PQueued? && !p.PQueued? && PollerHolds(s.p) == PollerHolds(p)
    ensures Locks(s.(p := p, enabled := enabled))
    ensures Locks(WakeCaller(s).(p := p))
  {}

  lemma PollerKeepsLocks(s: State, st: Status)
    requires Locks(s) && PollerCanStep(s)
    ensures Locks(PollerStep(s, st))
  {
    hide Locks, PollerLocks, PollerUnlocks, WakeCaller;
    match s.p
    case PLock(next) => PollerLocking(s, next);
    case PTest => PollerGoesOn(s, if s.enabled then PUnlockSleep else PWaitTest, s.enabled);
    case PWaitTest =>
      PollerGoesOn(s, PEnable, s.enabled);
      HolderIs(s);
      PollerUnlocking(s, PWaiting);
    case PEnable => PollerGoesOn(s, PSignalOn, true);
    case PSignalOn => PollerGoesOn(s, PUnlock, s.enabled);
    case PUnlock => HolderIs(s); PollerUnlocking(s, PPoll);
    case PUnlockSleep => HolderIs(s); PollerUnlocking(s, PSleep);
    case PSleep => PollerGoesOn(s, PPoll, s.enabled);
    case PPoll => PollerGoesOn(s, PLock(AtStop(st)), s.enabled);
    case PStopTest(st') =>
      PollerGoesOn(s, PSignalOff(st'), false);
      PollerGoesOn(s, PHaltTest(st'), s.enabled);
    case PSignalOff(st') => PollerGoesOn(s, PHaltTest(st'), s.enabled);
    case PHaltTest(st') => PollerGoesOn(s, PFaultTest(st'), s.enabled && !st'.halt);
    case PFaultTest(st') => PollerGoesOn(s, PTest, s.enabled && !st'.fault);
  }

  lemma HolderIs(s: State)
    requires Locks(s)
    ensures s.mutex == ThePoller <==> PollerHolds(s.p)
  {}

  lemma PollerKeepsQuiet(s: State, st: Status)
    requires Inv(s) && PollerCanStep(s)
    ensures Quiet(PollerStep(s, st))
  {}

  lemma PollerKeepsRequests(s: State, st: Status)
    requires Inv(s) && PollerCanStep(s)
    ensures Requests(PollerStep(s, st))
  {}

  lemma PollerKeepsFlags(s: State, st: Status)
    requires Inv(s) && PollerCanStep(s)
    ensures Flags(PollerStep(s, st))
  {}

  lemma PollerKeepsHandshake(s: State, st: Status)
    requires Inv(s) && PollerCanStep(s)
    ensures Handshake(PollerStep(s, st))
  {}

  lemma CallerLocking(s: State, held: Caller, queued: Caller)
    requires Locks(s) && s.busy && !CallerHolds(s.c) && !s.c.CQueued? && !s.c.CRequeued?
    requires CallerHolds(held) && (queued.CQueued? || queued.CRequeued?)
    ensures Locks(CallerLocks(s, held, queued))
  {}

  lemma CallerUnlocking(s: State, c: Caller)
    requires Locks(s) && s.mutex == TheCaller && !CallerHolds(c) && !c.CQueued? && !c.CRequeued?
    ensures Locks(CallerUnlocks(s).(c := c))
  {}

  lemma CallerKeepsLocks(s: State)
    requires Locks(s) && CallerCanStep(s)
    ensures Locks(CallerStep(s))
  {
    hide CallerLocks, CallerUnlocks;
    match s.c
    case CLock(op) => CallerLocking(s, CTest(op), CQueued(op));
    case CWoken(op) => CallerLocking(s, CRetest(op), CRequeued(op));
    case CWait(op) => CallerUnlocking(s, CWaiting(op));
    case CUnlock(op) =>
      CallerUnlocking(s, CFree);
      QuietIsNoLock(CallerUnlocks(s).(c := CFree), op.Stop?);
    case _ =>
  }

  lemma QuietIsNoLock(s: State, quiet: bool)
    requires Locks(s)
    ensures Locks(s.(quiet := quiet))
  {}

  lemma CallerKeepsRequests(s: State)
    requires Inv(s) && CallerCanStep(s)
    ensures Requests(CallerStep(s))
  {}

  lemma CallerKeepsFlags(s: State)
    requires Inv(s) && CallerCanStep(s)
    ensures Flags(CallerStep(s))
  {}

  lemma CallerKeepsHandshake(s: State)
    requires Inv(s) && CallerCanStep(s)
    ensures Handshake(CallerStep(s))
  {}

  lemma CallerKeepsQuiet(s: State)
    requires Inv(s) && CallerCanStep(s)
    ensures Quiet(CallerStep(s))
  {}

  lemma CallerKeepsInv(s: State)
    requires Inv(s) && CallerCanStep(s)
    ensures Inv(CallerStep(s))
  {
    hide Locks, Requests, Flags, Handshake, Quiet, CallerStep;
    CallerKeepsLocks(s); CallerKeepsRequests(s); CallerKeepsFlags(s);
    CallerKeepsHandshake(s); CallerKeepsQuiet(s);
  }

  lemma StepKeepsInv(s: State, step: Step)
    requires Inv(s) && Enabled(s, step)
    ensures Inv(Apply(s, step))
  {
    match step
    case PStep(st) =>
      PollerKeepsLocks(s, st); PollerKeepsQuiet(s, st); PollerKeepsRequests(s, st);
      PollerKeepsFlags(s, st); PollerKeepsHandshake(s, st);
    case CStep => CallerKeepsInv(s);
    case _ =>
  }

  // ---------------------------------------------------------------- safety: exclusion

  /** The state after a list of steps, each of which was possible when its turn came. */
  ghost predicate Runs(s: State, steps: seq<Step>, s': State)
    decreases |steps|
  {
    if steps == [] then s == s' else Enabled(s, steps[0]) && Runs(Apply(s, steps[0]), steps[1..], s')
  }

  lemma {:induction false} RunKeepsInv(s: State, steps: seq<Step>, s': State)
    requires Inv(s) && Runs(s, steps, s')
    ensures Inv(s')
    decreases |steps|
  {
    if steps != [] {
      StepKeepsInv(s, steps[0]);
      RunKeepsInv(Apply(s, steps[0]), steps[1..], s');
    }
  }

  /** In every interleaving: once `poll_stop` has returned, and until the next call of `poll_start`,
      the poll thread is neither in `ice_poll` nor in its sleep, and has no way back there. */
  lemma PollExclusion(steps: seq<Step>, s: State)
    requires Runs(INIT, steps, s) && s.quiet
    ensures !s.p.PPoll? && !s.p.PSleep? && !Polling(s.p) && !s.enabled && !s.startReq
  {
    RunKeepsInv(INIT, steps, s);
  }

  /** Such states are reached: by two commands that stop the polling, one after the other. */
  lemma QuietIsReached() returns (s: State)
    ensures s.quiet && s.busy
    ensures Runs(INIT, [Take, Call(Stop), CStep, CStep, CStep, Drop, Take], s)
  {
    var a := Apply(Apply(INIT, Take), Call(Stop));
    var b := CallerStep(CallerStep(CallerStep(a)));
    s := Apply(Apply(b, Drop), Take);
    assert Runs(b, [Drop, Take], s) by { assert [Drop, Take][1..] == [Take]; assert [Take][1..] == []; }
    assert Runs(a, [CStep, CStep, CStep, Drop, Take], s) by {
      assert [CStep, CStep, CStep, Drop, Take][1..] == [CStep, CStep, Drop, Take];
      assert [CStep, CStep, Drop, Take][1..] == [CStep, Drop, Take];
      assert [CStep, Drop, Take][1..] == [Drop, Take];
      assert Runs(CallerStep(CallerStep(a)), [CStep, Drop, Take], s);
      assert Runs(CallerStep(a), [CStep, CStep, Drop, Take], s);
    }
    var all := [Take, Call(Stop), CStep, CStep, CStep, Drop, Take];
    assert all[1..] == [Call(Stop), CStep, CStep, CStep, Drop, Take];
    assert all[1..][1..] == [CStep, CStep, CStep, Drop, Take];
    assert Runs(Apply(INIT, Take), all[1..], s);
  }

  /** What `quiet` stands for: it is raised by the return of `poll_stop` and by nothing else, and
      only a call of `poll_start` takes it back. */
  lemma QuietFromStopToStart(s: State, step: Step)
    requires Inv(s) && Enabled(s, step)
    ensures !s.quiet && Apply(s, step).quiet ==> step == CStep && s.c == CUnlock(Stop)
    ensures step == CStep && s.c == CUnlock(Stop) ==> Apply(s, step).quiet
    ensures s.quiet && !Apply(s, step).quiet ==> step == Call(Start) || step == Skip
  {
  }

  /** What exclusion rests on: only the poll thread writes `poll_enabled`, and only under the mutex. */
  lemma OnlyPollerWritesEnabled(s: State, step: Step)
    requires Inv(s) && Enabled(s, step) && Apply(s, step).enabled != s.enabled
    ensures step.PStep? && s.mutex == ThePoller
  {
  }

  // ---------------------------------------------------------------- a halt ends the polling

  predicate Bad(st: Status) {
    st.halt || st.fault
  }

  /** A poll has reported a halt or a fault, and the poll thread is on its way to rest on account of that. */
  predicate ComesToRest(s: State) {
    match s.p
    case PStopTest(st) => Bad(st)
    case PSignalOff(st) => Bad(st)
    case PHaltTest(st) => Bad(st)
    case PFaultTest(st) => st.fault || !s.enabled
    case PTest => !s.enabled
    case PLock(AtStop(st)) => Bad(st)
    case PQueued(AtStop(st)) => Bad(st)
    case _ => Resting(s.p)
  }

  /** The statement by which the poll thread starts polling again. */
  predicate Restarts(s: State, step: Step) {
    s.p.PEnable? && step.PStep?
  }

  lemma PollerStaysAtRest(s: State, st: Status)
    requires Flags(s) && PollerCanStep(s) && ComesToRest(s) && !s.p.PEnable?
    ensures ComesToRest(PollerStep(s, st))
  {
    hide PollerUnlocks, WakeCaller;
    UnlockingChangesNoFlag(s);
  }

  lemma UnlockingChangesNoFlag(s: State)
    ensures PollerUnlocks(s).p == s.p && PollerUnlocks(s).enabled == s.enabled
    ensures WakeCaller(s).p == s.p && WakeCaller(s).enabled == s.enabled
  {
  }

  /** All that the caller does to the poll thread: to give it the mutex, or to wake it. */
  predicate Nudged(p: Poller, q: Poller) {
    q == p || (p.PQueued? && q == Resumed(p.next)) || (p.PWaiting? && q == PLock(AtWait))
  }

  lemma KernelNudges(s: State, held: Caller, queued: Caller)
    ensures CallerLocks(s, held, queued).p == s.p && CallerLocks(s, held, queued).enabled == s.enabled
    ensures Nudged(s.p, CallerUnlocks(s).p) && CallerUnlocks(s).enabled == s.enabled
    ensures Nudged(s.p, WakePoller(s).p) && WakePoller(s).enabled == s.enabled
  {
  }

  lemma CallerNudges(s: State)
    requires CallerCanStep(s)
    ensures Nudged(s.p, CallerStep(s).p) && CallerStep(s).enabled == s.enabled
  {
    hide CallerLocks, CallerUnlocks, WakePoller, Nudged;
    NoNudge(s.p);
    match s.c
    case CLock(op) => KernelNudges(s, CTest(op), CQueued(op));
    case CWoken(op) => KernelNudges(s, CRetest(op), CRequeued(op));
    case _ => KernelNudges(s, CFree, CFree);
  }

  lemma NoNudge(p: Poller)
    ensures Nudged(p, p)
  {
  }

  lemma NudgedStaysAtRest(s: State, t: State)
    requires Flags(s) && ComesToRest(s) && Nudged(s.p, t.p) && t.enabled == s.enabled
    ensures ComesToRest(t)
  {
  }

  lemma StaysAtRest(s: State, step: Step)
    requires Inv(s) && Enabled(s, step) && ComesToRest(s) && !Restarts(s, step)
    ensures ComesToRest(Apply(s, step))
  {
    hide Locks, Requests, Flags, Handshake, Quiet, ComesToRest, PollerStep, CallerStep, Nudged;
    match step
    case PStep(st) => PollerStaysAtRest(s, st);
    case CStep =>
      CallerNudges(s);
      NudgedStaysAtRest(s, CallerStep(s));
    case _ =>
      NoNudge(s.p);
      NudgedStaysAtRest(s, Apply(s, step));
  }

  ghost predicate NeverRestarts(s: State, steps: seq<Step>)
    decreases |steps|
  {
    steps == [] || (Enabled(s, steps[0]) ==>
      !Restarts(s, steps[0]) && NeverRestarts(Apply(s, steps[0]), steps[1..]))
  }

  lemma {:induction false} RunStaysAtRest(s: State, steps: seq<Step>, s': State)
    requires Inv(s) && ComesToRest(s) && Runs(s, steps, s') && NeverRestarts(s, steps)
    ensures Inv(s') && ComesToRest(s')
    decreases |steps|
  {
    hide Inv, ComesToRest, Restarts;
    if steps != [] {
      StepKeepsInv(s, steps[0]);
      StaysAtRest(s, steps[0]);
      RunStaysAtRest(Apply(s, steps[0]), steps[1..], s');
    }
  }

  /** After a poll that reports a halt or a fault there is no other, over any interleaving, until the poll
      thread starts again; and that it does only for a `poll_start` that has asked and not yet returned. */
  lemma HaltEndsPolling(s: State, st: Status, steps: seq<Step>, s': State)
    requires Inv(s) && s.p.PPoll? && Bad(st) && Runs(Apply(s, PStep(st)), steps, s')
    requires NeverRestarts(Apply(s, PStep(st)), steps)
    ensures !s'.p.PPoll? && !s'.p.PSleep?
    ensures s'.p.PEnable? ==> s'.startReq && Asks(s'.c, Start)
  {
    StepKeepsInv(s, PStep(st));
    RunStaysAtRest(Apply(s, PStep(st)), steps, s');
  }

  /** Nothing else ends it but a request: polling goes off for a halt, a fault or `poll_stop`. */
  lemma PollingEndsOnlyFor(s: State, step: Step)
    requires Inv(s) && Enabled(s, step) && s.enabled && !Apply(s, step).enabled
    ensures (s.p.PStopTest? && s.stopReq) || (s.p.PHaltTest? && s.p.st.halt) || (s.p.PFaultTest? && s.p.st.fault)
  {
    hide Locks, Handshake, Quiet;
  }

  // ---------------------------------------------------------------- progress: every call returns

  predicate InCall(s: State) { !s.c.CFree? }

  datatype Thread = Background | Command

  /** The thread whose steps the call is waiting for. */
  function Helper(s: State): Thread {
    if s.c.CQueued? || s.c.CWaiting? || s.c.CRequeued? then Background else Command
  }

  predicate IsOf(step: Step, t: Thread) {
    if t == Background then step.PStep? else step.CStep?
  }

  predicate CanStep(s: State, t: Thread) {
    if t == Background then PollerCanStep(s) else CallerCanStep(s)
  }

  /** Statements the poll thread has to execute before it gives the mutex away, or raises its signal. */
  function PollerDistance(s: State): nat {
    match s.p
    case PSleep => 13
    case PPoll => 12
    case PLock(AtStop(_)) => 11
    case PStopTest(_) => 10
    case PSignalOff(_) => 9
    case PHaltTest(_) => 8
    case PFaultTest(_) => 7
    case PLock(_) => 6
    case PTest => 5
    case PWaitTest => 4
    case PEnable => 3
    case PSignalOn => 2
    case PUnlock => 1
    case PUnlockSleep => 1
    case _ => 0
  }

  function CallerDistance(c: Caller): nat {
    match c
    case CLock(_) => 12
    case CQueued(_) => 11
    case CTest(_) => 10
    case CRequest(_) => 9
    case CSignal => 8
    case CWait(_) => 7
    case CWaiting(_) => 6
    case CWoken(_) => 5
    case CRequeued(_) => 4
    case CRetest(_) => 3
    case CClear(_) => 2
    case CUnlock(_) => 1
    case CFree => 0
  }

  function Rank(s: State): nat {
    16 * CallerDistance(s.c) + if Helper(s) == Background then PollerDistance(s) else 0
  }

  /** In every reachable state with a call under way, the thread it waits for can move: no wake-up
      is ever lost. */
  lemma HelperCanStep(s: State)
    requires Inv(s) && InCall(s)
    ensures CanStep(s, Helper(s))
  {
  }

  lemma CallerProgress(s: State)
    requires Inv(s) && InCall(s) && CallerCanStep(s)
    ensures Rank(CallerStep(s)) < Rank(s)
  {
  }

  lemma PollerSignals(s: State, st: Status)
    requires Inv(s) && PollerCanStep(s) && s.c.CWaiting?
    ensures Rank(PollerStep(s, st)) < Rank(s)
  {}

  lemma HandsOver(s: State, p: Poller)
    requires s.c.CQueued? || s.c.CRequeued?
    ensures Rank(PollerUnlocks(s).(p := p)) < Rank(s)
  {}

  lemma PollerComesNearer(s: State, st: Status)
    requires Inv(s) && PollerCanStep(s) && (s.c.CQueued? || s.c.CRequeued?)
    requires !s.p.PUnlock? && !s.p.PUnlockSleep? && !(s.p.PWaitTest? && !s.startReq)
    ensures PollerStep(s, st).c == s.c && PollerDistance(PollerStep(s, st)) < PollerDistance(s)
  {
    hide Quiet, Handshake, Requests;
  }

  lemma PollerHandsOver(s: State, st: Status)
    requires Inv(s) && PollerCanStep(s) && (s.c.CQueued? || s.c.CRequeued?)
    ensures Rank(PollerStep(s, st)) < Rank(s)
  {
    hide Inv, PollerDistance, PollerUnlocks;
    if s.p.PUnlock? {
      HandsOver(s, PPoll);
    } else if s.p.PUnlockSleep? {
      HandsOver(s, PSleep);
    } else if s.p.PWaitTest? && !s.startReq {
      HandsOver(s, PWaiting);
    } else {
      PollerComesNearer(s, st);
    }
  }

  lemma PollerLeavesCommandAlone(s: State, st: Status)
    requires Inv(s) && PollerCanStep(s) && InCall(s) && Helper(s) == Command
    ensures PollerStep(s, st).c == s.c
  {}

  /** A run that never ends: every state comes from the one before by a possible step. */
  ghost predicate IsRun(run: nat -> State, sched: nat -> Step) {
    run(0) == INIT && forall i: nat :: IsStep(run, sched, i)
  }

  predicate IsStep(run: nat -> State, sched: nat -> Step, i: nat) {
    Enabled(run(i), sched(i)) && run(i + 1) == Apply(run(i), sched(i))
  }

  /** Weak fairness: from any moment on, each thread sooner or later moves or cannot. For the poll
      thread this includes that `ice_poll` returns. */
  ghost predicate IsFair(run: nat -> State, sched: nat -> Step) {
    forall t, i: nat :: ComesRound(run, sched, t, i)
  }

  ghost predicate ComesRound(run: nat -> State, sched: nat -> Step, t: Thread, i: nat) {
    exists j: nat :: i <= j && Turn(run, sched, t, j)
  }

  predicate Turn(run: nat -> State, sched: nat -> Step, t: Thread, j: nat) {
    IsOf(sched(j), t) || !CanStep(run(j), t)
  }

  lemma {:induction false} RunStates(run: nat -> State, sched: nat -> Step, i: nat)
    requires IsRun(run, sched)
    ensures Inv(run(i))
  {
    if i > 0 {
      RunStates(run, sched, i - 1);
      assert IsStep(run, sched, i - 1);
      StepKeepsInv(run(i - 1), sched(i - 1));
    }
  }

  /** Nothing but the two threads moves while a call is under way, and no step moves away from its
      end; a step of the thread it waits for moves closer. */
  lemma StepProgress(s: State, step: Step)
    requires Inv(s) && Enabled(s, step) && InCall(s) && InCall(Apply(s, step))
    ensures Rank(Apply(s, step)) < Rank(s)
      || (Rank(Apply(s, step)) == Rank(s) && Helper(Apply(s, step)) == Helper(s) && !IsOf(step, Helper(s)))
  {
    match step
    case PStep(st) =>
      if s.c.CWaiting? {
        PollerSignals(s, st);
      } else if Helper(s) == Background {
        PollerHandsOver(s, st);
      } else {
        PollerLeavesCommandAlone(s, st);
      }
    case CStep => CallerProgress(s);
    case _ =>
  }

  /** Until the helper has had its turn the rank cannot grow, and then it has fallen. */
  lemma {:induction false} Advance(run: nat -> State, sched: nat -> Step, i: nat, j: nat) returns (k: nat)
    requires IsRun(run, sched) && i <= j && InCall(run(i)) && Turn(run, sched, Helper(run(i)), j)
    ensures i <= k && (!InCall(run(k)) || Rank(run(k)) < Rank(run(i)))
    decreases j - i
  {
    RunStates(run, sched, i);
    HelperCanStep(run(i));
    assert IsStep(run, sched, i);
    k := i + 1;
    if InCall(run(i + 1)) {
      StepProgress(run(i), sched(i));
      if Rank(run(i + 1)) == Rank(run(i)) {
        k := Advance(run, sched, i + 1, j);
      }
    }
  }

  /** Every call of `poll_start` and of `poll_stop` returns. */
  lemma {:induction false} CallsReturn(run: nat -> State, sched: nat -> Step, i: nat) returns (k: nat)
    requires IsRun(run, sched) && IsFair(run, sched)
    ensures i <= k && !InCall(run(k))
    decreases if InCall(run(i)) then Rank(run(i)) else 0
  {
    k := i;
    if InCall(run(i)) {
      var t := Helper(run(i));
      assert ComesRound(run, sched, t, i);
      var j: nat :| i <= j && Turn(run, sched, t, j);
      k := Advance(run, sched, i, j);
      if InCall(run(k)) {
        k := CallsReturn(run, sched, k);
      }
    }
  }
}
