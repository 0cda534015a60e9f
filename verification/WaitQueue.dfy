/**
 * The thread queues of the kernel: a bitmap of ready threads, a bitmap for each object that threads wait
 * on, and one for threads that wait with a time limit. Time sharing is off.
 *
 * Queue 0 is the ready queue. `th_stat` names the queue of each thread, and in its lowest bit whether the
 * clock runs for it.
 */
module WaitQueue {
  const WORD := 32
  const WRAP := 0x1_0000_0000

  type Bitmap = set<nat>

  /** The state; `sig` and `sem` are given for every queue, and matter where it belongs to a flag or a
      semaphore. */
  datatype Rt = Rt(wq: seq<Bitmap>, clockq: Bitmap, clock: seq<nat>, stat: seq<nat>, ticks: nat,
                   isFlag: seq<bool>, sig: seq<bool>, sem: seq<nat>)

  /** `__thinkos_wq_head`: the lowest bit that is set from k on, or 32. */
  function First(q: Bitmap, k: nat): (th: nat)
    ensures th <= WORD || th == k
    ensures th < WORD ==> th in q && k <= th
    ensures forall x :: k <= x < th && x < WORD ==> x !in q
    ensures k <= WORD ==> th <= WORD
    decreases WORD - k
  {
    if k >= WORD then k else if k in q then k else First(q, k + 1)
  }

  function Head(q: Bitmap): (th: nat)
    ensures th <= WORD
    ensures th < WORD ==> th in q
    ensures forall x :: 0 <= x < th ==> x !in q
  {
    First(q, 0)
  }

  ghost predicate Shape(rt: Rt) {
    && |rt.wq| >= 1 && |rt.isFlag| == |rt.sig| == |rt.sem| == |rt.wq|
    && |rt.clock| == |rt.stat| <= WORD
  }

  /** Each thread is in one queue, the one its status names; a status that names the number behind the last
      queue is that of a thread in the clock queue only. */
  ghost predicate Queued(rt: Rt) {
    && (forall th :: 0 <= th < |rt.stat| ==> rt.stat[th] / 2 <= |rt.wq|)
    && forall q, th: nat :: 0 <= q < |rt.wq| ==> (th in rt.wq[q] <==> th < |rt.stat| && rt.stat[th] / 2 == q)
  }

  /** The clock runs for threads that wait or sleep, and their status says so. */
  ghost predicate Clocked(rt: Rt) {
    && (forall th :: th in rt.clockq ==> th < |rt.stat| && rt.stat[th] / 2 != 0)
    && (forall th :: 0 <= th < |rt.stat| && rt.stat[th] / 2 == |rt.wq| ==> th in rt.clockq)
    && (forall th :: 0 <= th < |rt.stat| ==> (rt.stat[th] % 2 == 1 <==> th in rt.clockq))
  }

  /** Nobody waits on a flag that is set. */
  ghost predicate FlagsServed(rt: Rt)
    requires Shape(rt)
  {
    forall q :: 0 <= q < |rt.wq| && rt.isFlag[q] && rt.sig[q] ==> rt.wq[q] == {}
  }

  ghost predicate Orderly(rt: Rt) {
    Shape(rt) && Queued(rt) && Clocked(rt) && !rt.isFlag[0]
  }

  ghost predicate Inv(rt: Rt) {
    Orderly(rt) && FlagsServed(rt)
  }

  // ---------------------------------------------------------------- waiting and waking

  /** A thread leaves the ready queue for that of an object, with the clock set or not. */
  function Block(rt: Rt, q: nat, th: nat, timed: bool, ms: nat): Rt
    requires 0 < q < |rt.wq| && th < |rt.stat| && th < |rt.clock|
  {
    rt.(wq := rt.wq[0 := rt.wq[0] - {th}][q := rt.wq[q] + {th}],
        stat := rt.stat[th := 2 * q + (if timed then 1 else 0)],
        clockq := if timed then rt.clockq + {th} else rt.clockq,
        clock := if timed then rt.clock[th := (rt.ticks + ms) % WRAP] else rt.clock)
  }

  /** `thinkos_sleep`: a thread leaves the ready queue for the clock queue. */
  function Sleep(rt: Rt, th: nat, ms: nat): Rt
    requires 0 < |rt.wq| && th < |rt.stat| && th < |rt.clock|
  {
    rt.(wq := rt.wq[0 := rt.wq[0] - {th}],
        stat := rt.stat[th := 2 * |rt.wq| + 1],
        clockq := rt.clockq + {th},
        clock := rt.clock[th := (rt.ticks + ms) % WRAP])
  }

  /** These threads are made ready, wherever they wait. */
  function WakeAll(rt: Rt, ths: Bitmap): Rt
    requires |rt.wq| >= 1
  {
    rt.(wq := seq(|rt.wq|, k requires 0 <= k < |rt.wq| => if k == 0 then rt.wq[0] + ths else rt.wq[k] - ths),
        stat := seq(|rt.stat|, th requires 0 <= th < |rt.stat| => if th in ths then 0 else rt.stat[th]),
        clockq := rt.clockq - ths)
  }

  lemma InQueue(rt: Rt, q: nat, th: nat)
    requires Queued(rt) && q < |rt.wq|
    ensures th in rt.wq[q] <==> th < |rt.stat| && rt.stat[th] / 2 == q
  {
  }

  lemma StatusOf(q: nat, bit: nat)
    requires bit < 2
    ensures (2 * q + bit) / 2 == q && (2 * q + bit) % 2 == bit
  {
  }

  /** What becomes of queue k when a thread goes from the ready queue to queue q. */
  function Moved(rt: Rt, q: nat, th: nat, k: nat): Bitmap
    requires k < |rt.wq|
  {
    if k == 0 then rt.wq[0] - {th} else if k == q then rt.wq[q] + {th} else rt.wq[k]
  }

  lemma MoveKeepsQueued(rt: Rt, t: Rt, q: nat, th: nat)
    requires Queued(rt) && 0 < q <= |rt.wq| && th < |rt.stat| && th in rt.wq[0]
    requires |t.wq| == |rt.wq| && forall k :: 0 <= k < |rt.wq| ==> t.wq[k] == Moved(rt, q, th, k)
    requires |t.stat| == |rt.stat| && t.stat[th] / 2 == q
    requires forall x :: 0 <= x < |rt.stat| && x != th ==> t.stat[x] == rt.stat[x]
    ensures Queued(t)
  {
    hide Queued;
    InQueue(rt, 0, th);
    forall k, x: nat | 0 <= k < |t.wq|
      ensures x in t.wq[k] <==> x < |t.stat| && t.stat[x] / 2 == k
    {
      InQueue(rt, k, x);
      InQueue(rt, k, th);
      assert t.wq[k] == Moved(rt, q, th, k);
    }
    NamesAQueue(rt);
    QueuedIf(t);
  }

  lemma NamesAQueue(rt: Rt)
    requires Queued(rt)
    ensures forall th :: 0 <= th < |rt.stat| ==> rt.stat[th] / 2 <= |rt.wq|
  {
  }

  lemma QueuedIf(rt: Rt)
    requires forall th :: 0 <= th < |rt.stat| ==> rt.stat[th] / 2 <= |rt.wq|
    requires forall q, th: nat :: 0 <= q < |rt.wq| ==> (th in rt.wq[q] <==> th < |rt.stat| && rt.stat[th] / 2 == q)
    ensures Queued(rt)
  {
  }

  lemma MoveKeepsClocked(rt: Rt, t: Rt, q: nat, th: nat, timed: bool)
    requires Clocked(rt) && 0 < q <= |rt.wq| && th < |rt.stat| && rt.stat[th] / 2 == 0 && (q == |rt.wq| ==> timed)
    requires |t.wq| == |rt.wq| && t.clockq == if timed then rt.clockq + {th} else rt.clockq
    requires t.stat == rt.stat[th := 2 * q + (if timed then 1 else 0)]
    ensures Clocked(t)
  {
    StatusOf(q, if timed then 1 else 0);
    assert th !in rt.clockq;
  }

  lemma BlockKeepsOrder(rt: Rt, q: nat, th: nat, timed: bool, ms: nat)
    requires Orderly(rt) && 0 < q < |rt.wq| && th < |rt.stat| && th in rt.wq[0]
    ensures Orderly(Block(rt, q, th, timed, ms))
  {
    hide Queued, Clocked;
    var t := Block(rt, q, th, timed, ms);
    StatusOf(q, if timed then 1 else 0);
    InQueue(rt, 0, th);
    MoveKeepsQueued(rt, t, q, th);
    MoveKeepsClocked(rt, t, q, th, timed);
  }

  lemma BlockKeepsInv(rt: Rt, q: nat, th: nat, timed: bool, ms: nat)
    requires Inv(rt) && 0 < q < |rt.wq| && th < |rt.stat| && th in rt.wq[0] && !(rt.isFlag[q] && rt.sig[q])
    ensures Inv(Block(rt, q, th, timed, ms))
  {
    hide Queued, Clocked;
    BlockKeepsOrder(rt, q, th, timed, ms);
  }

  lemma SleepKeepsInv(rt: Rt, th: nat, ms: nat)
    requires Inv(rt) && th < |rt.stat| && th in rt.wq[0]
    ensures Inv(Sleep(rt, th, ms))
  {
    hide Queued, Clocked;
    var t := Sleep(rt, th, ms);
    StatusOf(|rt.wq|, 1);
    InQueue(rt, 0, th);
    MoveKeepsQueued(rt, t, |rt.wq|, th);
    MoveKeepsClocked(rt, t, |rt.wq|, th, true);
  }

  lemma WakeKeepsInv(rt: Rt, ths: Bitmap)
    requires Orderly(rt) && forall th :: th in ths ==> th < |rt.stat|
    ensures Orderly(WakeAll(rt, ths))
    ensures FlagsServed(rt) ==> FlagsServed(WakeAll(rt, ths))
  {
    var t := WakeAll(rt, ths);
    forall k, x: nat | 0 <= k < |t.wq|
      ensures x in t.wq[k] <==> x < |t.stat| && t.stat[x] / 2 == k
    {
      InQueue(rt, k, x);
    }
  }

  lemma WakeTwice(rt: Rt, a: Bitmap, b: Bitmap)
    requires |rt.wq| >= 1
    ensures WakeAll(WakeAll(rt, a), b) == WakeAll(rt, a + b)
  {
    var x, y := WakeAll(WakeAll(rt, a), b), WakeAll(rt, a + b);
    assert forall k :: 0 <= k < |rt.wq| ==> x.wq[k] == y.wq[k];
    assert x.clockq == y.clockq;
    assert x.stat == y.stat && x.wq == y.wq;
  }

  lemma WakeNone(rt: Rt)
    requires |rt.wq| >= 1
    ensures WakeAll(rt, {}) == rt
  {
    var x := WakeAll(rt, {});
    assert forall k :: 0 <= k < |rt.wq| ==> x.wq[k] == rt.wq[k];
    assert x.wq == rt.wq && x.stat == rt.stat;
  }

  /** A bitmap of threads is empty when it has no head. */
  lemma NoHead(rt: Rt, q: Bitmap)
    requires Shape(rt) && forall th :: th in q ==> th < |rt.stat|
    ensures Head(q) == WORD <==> q == {}
  {
    if Head(q) == WORD {
      forall th: nat
        ensures th !in q
      {
      }
    }
  }

  // ---------------------------------------------------------------- the calls

  /** `thinkos_flag_take`: a set flag is cleared, a clear one waited for. */
  function FlagTake(rt: Rt, q: nat, th: nat, timed: bool, ms: nat): Rt
    requires 0 < q < |rt.wq| && th < |rt.stat| && th < |rt.clock| && q < |rt.sig|
  {
    if rt.sig[q] then rt.(sig := rt.sig[q := false]) else Block(rt, q, th, timed, ms)
  }

  /** `__thinkos_flag_give`: one thread is woken, or else the flag is set. */
  function FlagGive(rt: Rt, q: nat): Rt
    requires q < |rt.wq| && q < |rt.sig|
  {
    if rt.sig[q] then rt
    else if Head(rt.wq[q]) < WORD then WakeAll(rt, {Head(rt.wq[q])})
    else rt.(sig := rt.sig[q := true])
  }

  /** `thinkos_flag_set_i`: the flag is set and all threads are woken. */
  function FlagSet(rt: Rt, q: nat): Rt
    requires q < |rt.wq| && q < |rt.sig|
  {
    WakeAll(rt.(sig := rt.sig[q := true]), rt.wq[q])
  }

  function SemPost(rt: Rt, q: nat): Rt
    requires q < |rt.wq| && q < |rt.sem|
  {
    if Head(rt.wq[q]) < WORD then WakeAll(rt, {Head(rt.wq[q])}) else rt.(sem := rt.sem[q := rt.sem[q] + 1])
  }

  /** `(int32_t)(clock - ticks) <= 0`. */
  predicate Expired(clock: nat, ticks: nat) {
    var d := (clock - ticks) % WRAP;
    d == 0 || d >= 0x8000_0000
  }

  function Due(rt: Rt): Bitmap {
    set th | th in rt.clockq && th < |rt.clock| && Expired(rt.clock[th], rt.ticks)
  }

  /** The system tick: those whose time is over are made ready, from whatever queue they wait in. */
  function Tick(rt: Rt): Rt
    requires |rt.wq| >= 1
  {
    var t := rt.(ticks := (rt.ticks + 1) % WRAP);
    WakeAll(t, Due(t))
  }

  // ---------------------------------------------------------------- whole runs

  datatype Step =
    | Wait(q: nat, th: nat)
    | TimedWait(q: nat, th: nat, ms: nat)
    | Take(q: nat, th: nat)
    | TimedTake(q: nat, th: nat, ms: nat)
    | Give(q: nat)
    | SetFlag(q: nat)
    | ClearFlag(q: nat)
    | Post(q: nat)
    | WakeHead(q: nat)
    | GoToSleep(th: nat, ms: nat)
    | SysTick

  /** A thread that waits is ready before, and threads queue up on a flag only while it is clear. */
  predicate Enabled(rt: Rt, step: Step)
    requires |rt.wq| >= 1 && |rt.isFlag| == |rt.sig| == |rt.sem| == |rt.wq|
  {
    match step
    case Wait(q, th) => 0 < q < |rt.wq| && th < |rt.stat| && th in rt.wq[0] && !(rt.isFlag[q] && rt.sig[q])
    case TimedWait(q, th, _) => 0 < q < |rt.wq| && th < |rt.stat| && th in rt.wq[0] && !(rt.isFlag[q] && rt.sig[q])
    case Take(q, th) => 0 < q < |rt.wq| && th < |rt.stat| && th in rt.wq[0] && rt.isFlag[q]
    case TimedTake(q, th, _) => 0 < q < |rt.wq| && th < |rt.stat| && th in rt.wq[0] && rt.isFlag[q]
    case Give(q) => 0 < q < |rt.wq| && rt.isFlag[q]
    case SetFlag(q) => 0 < q < |rt.wq| && rt.isFlag[q]
    case ClearFlag(q) => 0 < q < |rt.wq| && rt.isFlag[q]
    case Post(q) => 0 < q < |rt.wq| && !rt.isFlag[q]
    case WakeHead(q) => 0 < q < |rt.wq| && rt.wq[q] != {}
    case GoToSleep(th, _) => th < |rt.stat| && th in rt.wq[0]
    case SysTick => true
  }

  function Apply(rt: Rt, step: Step): Rt
    requires |rt.wq| >= 1 && |rt.isFlag| == |rt.sig| == |rt.sem| == |rt.wq| && |rt.clock| == |rt.stat|
    requires Enabled(rt, step)
  {
    match step
    case Wait(q, th) => Block(rt, q, th, false, 0)
    case TimedWait(q, th, ms) => Block(rt, q, th, true, ms)
    case Take(q, th) => FlagTake(rt, q, th, false, 0)
    case TimedTake(q, th, ms) => FlagTake(rt, q, th, true, ms)
    case Give(q) => FlagGive(rt, q)
    case SetFlag(q) => FlagSet(rt, q)
    case ClearFlag(q) => rt.(sig := rt.sig[q := false])
    case Post(q) => SemPost(rt, q)
    case WakeHead(q) => WakeAll(rt, {Head(rt.wq[q])})
    case GoToSleep(th, ms) => Sleep(rt, th, ms)
    case SysTick => Tick(rt)
  }

  lemma MembersAreThreads(rt: Rt, q: nat)
    requires Orderly(rt) && q < |rt.wq|
    ensures forall th :: th in rt.wq[q] ==> th < |rt.stat|
  {
    forall th | th in rt.wq[q]
      ensures th < |rt.stat|
    {
      InQueue(rt, q, th);
    }
  }

  lemma SetKeepsInv(rt: Rt, q: nat)
    requires Inv(rt) && 0 < q < |rt.wq| && rt.isFlag[q]
    ensures Inv(FlagSet(rt, q)) && FlagSet(rt, q).wq[q] == {}
  {
    MembersAreThreads(rt, q);
    WakeKeepsInv(rt, rt.wq[q]);
    var t := WakeAll(rt, rt.wq[q]);
    assert FlagSet(rt, q) == t.(sig := t.sig[q := true]);
    assert t.wq[q] == {};
  }

  lemma GiveKeepsInv(rt: Rt, q: nat)
    requires Inv(rt) && 0 < q < |rt.wq|
    ensures Inv(FlagGive(rt, q)) && Inv(SemPost(rt, q))
    ensures rt.wq[q] != {} ==> Head(rt.wq[q]) < WORD && Inv(WakeAll(rt, {Head(rt.wq[q])}))
  {
    MembersAreThreads(rt, q);
    NoHead(rt, rt.wq[q]);
    if Head(rt.wq[q]) < WORD { WakeKeepsInv(rt, {Head(rt.wq[q])}); }
  }

  lemma TickKeepsInv(rt: Rt)
    requires Inv(rt)
    ensures Inv(Tick(rt))
  {
    hide Queued, Clocked;
    var t := rt.(ticks := (rt.ticks + 1) % WRAP);
    TicksMatterNot(rt, t);
    ClockedAreThreads(t);
    WakeKeepsInv(t, Due(t));
  }

  lemma ClockedAreThreads(rt: Rt)
    requires Clocked(rt)
    ensures forall th :: th in rt.clockq ==> th < |rt.stat|
  {
  }

  lemma StepKeepsInv(rt: Rt, step: Step)
    requires Inv(rt) && Enabled(rt, step)
    ensures Inv(Apply(rt, step))
  {
    hide Queued, Clocked;
    match step
    case Wait(q, th) => BlockKeepsInv(rt, q, th, false, 0);
    case TimedWait(q, th, ms) => BlockKeepsInv(rt, q, th, true, ms);
    case Take(q, th) => if rt.sig[q] { SigKeepsInv(rt, q); } else { BlockKeepsInv(rt, q, th, false, 0); }
    case TimedTake(q, th, ms) => if rt.sig[q] { SigKeepsInv(rt, q); } else { BlockKeepsInv(rt, q, th, true, ms); }
    case Give(q) => GiveKeepsInv(rt, q);
    case SetFlag(q) => SetKeepsInv(rt, q);
    case ClearFlag(q) => SigKeepsInv(rt, q);
    case Post(q) => GiveKeepsInv(rt, q);
    case WakeHead(q) => GiveKeepsInv(rt, q);
    case GoToSleep(th, ms) => SleepKeepsInv(rt, th, ms);
    case SysTick => TickKeepsInv(rt);
  }

  lemma SigKeepsInv(rt: Rt, q: nat)
    requires Inv(rt) && q < |rt.wq|
    ensures Inv(rt.(sig := rt.sig[q := false]))
  {
    hide Queued, Clocked;
    SigMattersNot(rt, rt.(sig := rt.sig[q := false]));
  }

  ghost predicate Possible(rt: Rt, run: seq<Step>)
    decreases |run|
  {
    run == [] || (Shape(rt) && Enabled(rt, run[0]) && Possible(Apply(rt, run[0]), run[1..]))
  }

  ghost function Final(rt: Rt, run: seq<Step>): Rt
    requires Possible(rt, run)
    decreases |run|
  {
    if run == [] then rt else Final(Apply(rt, run[0]), run[1..])
  }

  /** Over any run of waits, sleeps and wakes, each thread is in the queue its status names and in no other,
      the clock runs only for threads that wait or sleep, and nobody waits on a flag that is set. */
  lemma {:induction false} RunKeepsInv(rt: Rt, run: seq<Step>)
    requires Inv(rt) && Possible(rt, run)
    ensures Inv(Final(rt, run))
    decreases |run|
  {
    if run != [] {
      StepKeepsInv(rt, run[0]);
      RunKeepsInv(Apply(rt, run[0]), run[1..]);
    }
  }

  /** The kernel after start-up: n threads, all of them ready, and no clock runs. The objects are as their
      allocation leaves them. */
  function StartUp(n: nat, isFlag: seq<bool>, sig: seq<bool>, sem: seq<nat>): Rt {
    Rt(seq(|isFlag|, q => if q == 0 then Threads(n) else {}), {}, seq(n, _ => 0), seq(n, _ => 0), 0, isFlag, sig, sem)
  }

  function Threads(n: nat): (q: Bitmap)
    ensures forall th: nat :: th in q <==> th < n
  {
    if n == 0 then {} else Threads(n - 1) + {n - 1}
  }

  lemma StartUpInv(n: nat, isFlag: seq<bool>, sig: seq<bool>, sem: seq<nat>)
    requires n <= WORD && |isFlag| == |sig| == |sem| >= 1 && !isFlag[0]
    ensures Inv(StartUp(n, isFlag, sig, sem))
  {
    var rt := StartUp(n, isFlag, sig, sem);
    forall q, th: nat | 0 <= q < |rt.wq|
      ensures th in rt.wq[q] <==> th < |rt.stat| && rt.stat[th] / 2 == q
    {
      assert rt.wq[q] == if q == 0 then Threads(n) else {};
    }
    QueuedIf(rt);
  }

  /** So it is from start-up on. */
  lemma RunFromStartUp(n: nat, isFlag: seq<bool>, sig: seq<bool>, sem: seq<nat>, run: seq<Step>)
    requires n <= WORD && |isFlag| == |sig| == |sem| >= 1 && !isFlag[0]
    requires Possible(StartUp(n, isFlag, sig, sem), run)
    ensures Inv(Final(StartUp(n, isFlag, sig, sem), run))
  {
    StartUpInv(n, isFlag, sig, sem);
    RunKeepsInv(StartUp(n, isFlag, sig, sem), run);
  }

  // ---------------------------------------------------------------- when a thread wakes

  /** The call that a waiting thread is woken by: one that gives, posts or wakes the head of its queue while
      no lower number waits there, or one that sets its flag. */
  predicate Calls(rt: Rt, step: Step, q: nat, th: nat)
    requires q < |rt.wq|
  {
    match step
    case SetFlag(k) => k == q
    case Give(k) => k == q && forall x :: x in rt.wq[q] ==> th <= x
    case Post(k) => k == q && forall x :: x in rt.wq[q] ==> th <= x
    case WakeHead(k) => k == q && forall x :: x in rt.wq[q] ==> th <= x
    case _ => false
  }

  /** Short of the clock, nothing else wakes it. */
  lemma WokenByCall(rt: Rt, step: Step, q: nat, th: nat)
    requires Inv(rt) && Enabled(rt, step) && 0 < q < |rt.wq| && th in rt.wq[q] && step != SysTick
    ensures th in Apply(rt, step).wq[0] <==> Calls(rt, step, q, th)
    ensures Calls(rt, step, q, th) ==> th !in Apply(rt, step).wq[q] && Apply(rt, step).sem == rt.sem
  {
    hide Queued, Clocked, WakeAll, Head;
    InQueue(rt, q, th);
    InQueue(rt, 0, th);
    match step
    case Give(k) => HeadWoken(rt, k, q, th);
    case SetFlag(k) =>
      InQueue(rt, k, th);
      ReadyAfter(rt.(sig := rt.sig[k := true]), rt.wq[k], q, th);
    case Post(k) => HeadWoken(rt, k, q, th);
    case WakeHead(k) => HeadWoken(rt, k, q, th);
    case _ =>
  }

  lemma ReadyAfter(rt: Rt, ths: Bitmap, q: nat, th: nat)
    requires 0 < q < |rt.wq| && th in rt.wq[q] && th !in rt.wq[0]
    ensures var t := WakeAll(rt, ths); |t.wq| == |rt.wq| && t.sem == rt.sem && t.sig == rt.sig
    ensures th in WakeAll(rt, ths).wq[0] <==> th in ths
    ensures th in WakeAll(rt, ths).wq[q] <==> th !in ths
  {
  }

  lemma HeadWoken(rt: Rt, k: nat, q: nat, th: nat)
    requires Inv(rt) && 0 < q < |rt.wq| && 0 < k < |rt.wq| && th in rt.wq[q]
    ensures var h := Head(rt.wq[k]);
      && th !in rt.wq[0] && |WakeAll(rt, {h}).wq| == |rt.wq| && WakeAll(rt, {h}).sem == rt.sem
      && (rt.isFlag[k] && rt.sig[k] ==> k != q) && (k == q ==> h < WORD)
      && (th in WakeAll(rt, {h}).wq[0] <==> k == q && forall x :: x in rt.wq[q] ==> th <= x)
      && (th in WakeAll(rt, {h}).wq[q] <==> !(k == q && forall x :: x in rt.wq[q] ==> th <= x))
  {
    hide Queued, Clocked, WakeAll;
    var h := Head(rt.wq[k]);
    InQueue(rt, 0, th);
    InQueue(rt, q, th);
    InQueue(rt, k, th);
    MembersAreThreads(rt, k);
    NoHead(rt, rt.wq[k]);
    ReadyAfter(rt, {h}, q, th);
    if k == q && h == th { assert forall x :: x in rt.wq[q] ==> th <= x; }
  }

  /** What a step leaves behind at an object: a post that wakes nobody is counted, a flag that is given to
      nobody stays set until it is taken or cleared, and nothing else touches either. */
  lemma NothingLost(rt: Rt, step: Step, q: nat)
    requires Inv(rt) && Enabled(rt, step) && 0 < q < |rt.wq|
    ensures |Apply(rt, step).sem| == |rt.sem| && |Apply(rt, step).sig| == |rt.sig|
    ensures Apply(rt, step).sem[q] == rt.sem[q] + if step == Post(q) && rt.wq[q] == {} then 1 else 0
    ensures Apply(rt, step).sig[q] <==>
      step == SetFlag(q) || (step == Give(q) && rt.wq[q] == {}) ||
      (rt.sig[q] && step != ClearFlag(q) && !((step.Take? || step.TimedTake?) && step.q == q))
    ensures step.Take? || step.TimedTake? ==> (step.th in Apply(rt, step).wq[0] <==> rt.sig[step.q])
  {
    hide Queued, Clocked;
    MembersAreThreads(rt, q);
    NoHead(rt, rt.wq[q]);
  }

  /** The clock runs for the thread, and reads this many ticks ahead. */
  ghost predicate Counting(rt: Rt, th: nat, left: nat) {
    && |rt.wq| >= 1 && th in rt.clockq && th !in rt.wq[0]
    && th < |rt.clock| && (rt.clock[th] - rt.ticks) % WRAP == left
  }

  /** The tick that ends a wait of ms ticks, counted from its start. The difference is taken for a signed
      number: what is more than 2^31 ahead is over at once, and so is nothing. */
  function WakeTick(ms: nat): nat
    requires ms < WRAP
  {
    if ms == 0 || ms > 0x8000_0000 then 1 else ms
  }

  lemma CountsDown(rt: Rt, th: nat, left: nat)
    requires Inv(rt) && Counting(rt, th, left)
    ensures WakeTick(left) == 1 ==> th in Tick(rt).wq[0] && th !in Tick(rt).clockq
    ensures WakeTick(left) > 1 ==> Counting(Tick(rt), th, left - 1) && WakeTick(left - 1) == WakeTick(left) - 1
  {
    hide Queued, Clocked, FlagsServed;
    var t := rt.(ticks := (rt.ticks + 1) % WRAP);
    OneLess(rt.clock[th], rt.ticks);
    assert th in Due(t) <==> Expired(rt.clock[th], t.ticks);
  }

  lemma OneLess(clock: nat, ticks: nat)
    ensures (clock - (ticks + 1) % WRAP) % WRAP == ((clock - ticks) % WRAP - 1) % WRAP
  {
  }

  /** A call that does not make the thread ready leaves its clock alone. */
  lemma OthersDoNotCount(rt: Rt, step: Step, th: nat, left: nat)
    requires Inv(rt) && Enabled(rt, step) && Counting(rt, th, left) && step != SysTick
    requires th !in Apply(rt, step).wq[0]
    ensures Counting(Apply(rt, step), th, left)
  {
    hide Queued, Clocked, FlagsServed;
  }

  /** No call of the run makes the thread ready. */
  ghost predicate LeftAlone(rt: Rt, th: nat, run: seq<Step>)
    requires Possible(rt, run)
    decreases |run|
  {
    run == [] ||
    (var t := Apply(rt, run[0]); (run[0] == SysTick || th !in t.wq[0]) && LeftAlone(t, th, run[1..]))
  }

  function Ticks(run: seq<Step>): nat {
    if run == [] then 0 else (if run[0] == SysTick then 1 else 0) + Ticks(run[1..])
  }

  lemma {:induction false} StillCounting(rt: Rt, th: nat, left: nat, run: seq<Step>)
    requires Inv(rt) && Possible(rt, run) && LeftAlone(rt, th, run) && Counting(rt, th, left)
    requires Ticks(run) < WakeTick(left)
    ensures Counting(Final(rt, run), th, left - Ticks(run)) && Inv(Final(rt, run))
    ensures WakeTick(left - Ticks(run)) == WakeTick(left) - Ticks(run)
    decreases |run|
  {
    hide Inv, Counting, Apply, Enabled;
    if run != [] {
      StepKeepsInv(rt, run[0]);
      if run[0] == SysTick {
        TickIs(rt);
        CountsDown(rt, th, left);
        CountedIs(rt, th, left);
        StillCounting(Apply(rt, run[0]), th, left - 1, run[1..]);
      } else {
        OthersDoNotCount(rt, run[0], th, left);
        StillCounting(Apply(rt, run[0]), th, left, run[1..]);
      }
    } else {
      CountedIs(rt, th, left);
    }
  }

  lemma TickIs(rt: Rt)
    requires Inv(rt)
    ensures Enabled(rt, SysTick) && Apply(rt, SysTick) == Tick(rt)
  {
  }

  lemma CountedIs(rt: Rt, th: nat, left: nat)
    requires Counting(rt, th, left)
    ensures left < WRAP && |rt.wq| >= 1 && th in rt.clockq && th !in rt.wq[0]
  {
  }

  /** The calls that set the clock of a thread. */
  predicate SetsClock(rt: Rt, call: Step, th: nat, ms: nat) {
    match call
    case GoToSleep(x, m) => x == th && m == ms
    case TimedWait(_, x, m) => x == th && m == ms
    case TimedTake(q, x, m) => x == th && m == ms && q < |rt.sig| && !rt.sig[q]
    case _ => false
  }

  lemma StartsCounting(rt: Rt, call: Step, th: nat, ms: nat)
    requires Inv(rt) && Enabled(rt, call) && SetsClock(rt, call, th, ms) && ms < WRAP
    ensures Counting(Apply(rt, call), th, ms)
  {
    hide Queued, Clocked, FlagsServed;
    StepKeepsInv(rt, call);
    assert ((rt.ticks + ms) % WRAP - rt.ticks) % WRAP == ms;
  }

  /** A thread that sleeps, or waits with a time limit, and that no call makes ready is still waiting after
      fewer ticks than WakeTick says, and ready after exactly as many, wherever the tick counter wraps. */
  lemma WakesOnTime(rt: Rt, call: Step, th: nat, ms: nat, run: seq<Step>)
    requires Inv(rt) && Enabled(rt, call) && SetsClock(rt, call, th, ms) && ms < WRAP
    requires Possible(Apply(rt, call), run) && LeftAlone(Apply(rt, call), th, run)
    ensures var t := Final(Apply(rt, call), run);
      && (Ticks(run) < WakeTick(ms) ==> th in t.clockq && |t.wq| >= 1 && th !in t.wq[0])
      && (Ticks(run) + 1 == WakeTick(ms) ==>
            Possible(t, [SysTick]) && var u := Final(t, [SysTick]); th in u.wq[0] && th !in u.clockq)
  {
    hide Queued, Clocked, FlagsServed, Counting, Apply, Enabled, LeftAlone;
    StepKeepsInv(rt, call);
    StartsCounting(rt, call, th, ms);
    if Ticks(run) < WakeTick(ms) {
      var t := Apply(rt, call);
      StillCounting(t, th, ms, run);
      CountedIs(Final(t, run), th, ms - Ticks(run));
      CountsDown(Final(t, run), th, ms - Ticks(run));
      TickIs(Final(t, run));
      OneStep(Final(t, run), SysTick);
    }
  }

  lemma OneStep(rt: Rt, step: Step)
    requires Inv(rt) && Enabled(rt, step)
    ensures Possible(rt, [step]) && Final(rt, [step]) == Apply(rt, step)
  {
    assert [step][1..] == [];
  }

  /** A thread that sleeps is in no queue, so no call makes it ready: it wakes on time in every run. */
  lemma SleepsOnTime(rt: Rt, th: nat, ms: nat, run: seq<Step>)
    requires Inv(rt) && Enabled(rt, GoToSleep(th, ms)) && ms < WRAP
    requires Possible(Apply(rt, GoToSleep(th, ms)), run)
    ensures var t := Final(Apply(rt, GoToSleep(th, ms)), run);
      && (Ticks(run) < WakeTick(ms) ==> th in t.clockq && |t.wq| >= 1 && th !in t.wq[0])
      && (Ticks(run) + 1 == WakeTick(ms) ==>
            Possible(t, [SysTick]) && var u := Final(t, [SysTick]); th in u.wq[0] && th !in u.clockq)
  {
    hide Queued, Clocked, FlagsServed, Counting, Apply, Enabled, LeftAlone;
    var call := GoToSleep(th, ms);
    StepKeepsInv(rt, call);
    StartsCounting(rt, call, th, ms);
    InNoQueue(rt, th, ms);
    if Ticks(run) < WakeTick(ms) {
      SleeperLeftAlone(Apply(rt, call), th, ms, run);
      WakesOnTime(rt, call, th, ms, run);
    }
  }

  ghost predicate Asleep(rt: Rt, th: nat) {
    forall q :: 0 <= q < |rt.wq| ==> th !in rt.wq[q]
  }

  lemma InNoQueue(rt: Rt, th: nat, ms: nat)
    requires Inv(rt) && Enabled(rt, GoToSleep(th, ms))
    ensures Asleep(Apply(rt, GoToSleep(th, ms)), th)
  {
    var t := Sleep(rt, th, ms);
    InQueue(rt, 0, th);
    forall q | 0 <= q < |t.wq|
      ensures th !in t.wq[q]
    {
      InQueue(rt, q, th);
    }
  }

  /** No call but its own brings a sleeping thread into a queue. */
  lemma StepKeepsAsleep(rt: Rt, step: Step, th: nat)
    requires Inv(rt) && Enabled(rt, step) && Asleep(rt, th) && (step == SysTick ==> th !in Tick(rt).wq[0])
    ensures Asleep(Apply(rt, step), th)
  {
    hide Queued, Clocked, FlagsServed;
    MembersAreQueued(rt, step);
  }

  /** The head that a call wakes is in the queue. */
  lemma MembersAreQueued(rt: Rt, step: Step)
    requires Inv(rt) && Enabled(rt, step)
    ensures step.WakeHead? ==> Head(rt.wq[step.q]) in rt.wq[step.q]
  {
    if step.WakeHead? { GiveKeepsInv(rt, step.q); }
  }

  lemma {:induction false} SleeperLeftAlone(rt: Rt, th: nat, left: nat, run: seq<Step>)
    requires Inv(rt) && Possible(rt, run) && Asleep(rt, th) && Counting(rt, th, left) && Ticks(run) < WakeTick(left)
    ensures LeftAlone(rt, th, run)
    decreases |run|
  {
    hide Inv, Counting, Apply, Enabled, Asleep;
    if run != [] {
      StepKeepsInv(rt, run[0]);
      var t := Apply(rt, run[0]);
      if run[0] == SysTick {
        TickIs(rt);
        CountsDown(rt, th, left);
        CountedIs(rt, th, left);
        CountedIs(Tick(rt), th, left - 1);
        StepKeepsAsleep(rt, run[0], th);
        SleeperLeftAlone(t, th, left - 1, run[1..]);
      } else {
        StepKeepsAsleep(rt, run[0], th);
        NotReady(t, th);
        OthersDoNotCount(rt, run[0], th, left);
        SleeperLeftAlone(t, th, left, run[1..]);
      }
    }
  }

  lemma NotReady(rt: Rt, th: nat)
    requires Inv(rt) && Asleep(rt, th)
    ensures |rt.wq| >= 1 && th !in rt.wq[0]
  {
  }

  /** Without the condition on queueing, a thread may wait on a set flag: nothing else is lost, but no giving of
      the flag wakes the thread then, as long as the flag is set. */
  lemma WaitOnSetFlag(rt: Rt, q: nat, th: nat)
    requires Inv(rt) && 0 < q < |rt.wq| && th < |rt.stat| && th in rt.wq[0]
    ensures var t := Block(rt, q, th, false, 0);
      && Orderly(t) && (Inv(t) <==> !(rt.isFlag[q] && rt.sig[q]))
      && (if rt.sig[q] then FlagGive(t, q) == t && th in t.wq[q]
          else Head(t.wq[q]) <= th && FlagGive(t, q) == WakeAll(t, {Head(t.wq[q])}))
  {
    hide Queued, Clocked;
    BlockKeepsOrder(rt, q, th, false, 0);
    var t := Block(rt, q, th, false, 0);
    assert th in t.wq[q];
    if !(rt.isFlag[q] && rt.sig[q]) { BlockKeepsInv(rt, q, th, false, 0); }
  }

  // ---------------------------------------------------------------- the bitmaps, updated in place

  class Runtime {
    var wq: seq<Bitmap>
    var clockq: Bitmap
    var clock: seq<nat>
    var stat: seq<nat>
    var ticks: nat
    const isFlag: seq<bool>
    var sig: seq<bool>
    var sem: seq<nat>

    ghost function View(): Rt
      reads this
    {
      Rt(wq, clockq, clock, stat, ticks, isFlag, sig, sem)
    }

    /** `__thinkos_wq_insert` or `__thinkos_tmdwq_insert`, and `__thinkos_wait`. */
    method WaitOn(q: nat, th: nat, timed: bool, ms: nat)
      requires Inv(View()) && 0 < q < |wq| && th < |stat| && th in wq[0] && !(isFlag[q] && sig[q])
      modifies this
      ensures Inv(View()) && View() == Block(old(View()), q, th, timed, ms)
    {
      hide Queued, Clocked, FlagsServed;
      BlockKeepsInv(View(), q, th, timed, ms);
      wq := wq[q := wq[q] + {th}];
      if timed {
        clock := clock[th := (ticks + ms) % WRAP];
        clockq := clockq + {th};
        stat := stat[th := 2 * q + 1];
      } else {
        stat := stat[th := 2 * q];
      }
      wq := wq[0 := wq[0] - {th}];
      assert wq == old(wq)[0 := old(wq[0]) - {th}][q := old(wq[q]) + {th}];
    }

    /** `thinkos_sleep`. */
    method GoToSleep(th: nat, ms: nat)
      requires Inv(View()) && th < |stat| && th in wq[0]
      modifies this
      ensures Inv(View()) && View() == Sleep(old(View()), th, ms)
    {
      hide Queued, Clocked, FlagsServed;
      SleepKeepsInv(View(), th, ms);
      clock := clock[th := (ticks + ms) % WRAP];
      clockq := clockq + {th};
      stat := stat[th := 2 * |wq| + 1];
      wq := wq[0 := wq[0] - {th}];
    }

    /** `thinkos_flag_take` and its timed form; whether the flag was there. */
    method Take(q: nat, th: nat, timed: bool, ms: nat) returns (taken: bool)
      requires Inv(View()) && 0 < q < |wq| && th < |stat| && th in wq[0] && isFlag[q]
      modifies this
      ensures Inv(View()) && View() == FlagTake(old(View()), q, th, timed, ms) && taken == old(sig[q])
    {
      hide Queued, Clocked;
      taken := sig[q];
      if taken {
        SigKeepsInv(View(), q);
        sig := sig[q := false];
      } else {
        WaitOn(q, th, timed, ms);
      }
    }

    /** `__thinkos_sem_post`. */
    method Post(q: nat)
      requires Inv(View()) && 0 < q < |wq|
      modifies this
      ensures Inv(View()) && View() == SemPost(old(View()), q)
    {
      GiveKeepsInv(View(), q);
      var th := Head(wq[q]);
      if th == WORD { sem := sem[q := sem[q] + 1]; } else { Wakeup(q, th); }
    }

    /** `__thinkos_wakeup`. */
    method Wakeup(q: nat, th: nat)
      requires Orderly(View()) && 0 < q < |wq| && th in wq[q]
      modifies this`wq, this`clockq, this`stat
      ensures Orderly(View()) && View() == WakeAll(old(View()), {th})
      ensures wq == old(wq)[0 := old(wq[0]) + {th}][q := old(wq[q]) - {th}]
      ensures clockq == old(clockq) - {th} && |stat| == |old(stat)| && th < |stat|
    {
      WakeKeepsOthers(View(), q, th);
      wq := wq[0 := wq[0] + {th}];
      wq := wq[q := wq[q] - {th}];
      clockq := clockq - {th};
      stat := stat[th := 0];
    }

    /** `__thinkos_flag_give`. */
    method Give(q: nat)
      requires Inv(View()) && 0 < q < |wq| && isFlag[q]
      modifies this
      ensures Inv(View()) && View() == FlagGive(old(View()), q)
    {
      GiveKeepsInv(View(), q);
      if !sig[q] {
        var th := Head(wq[q]);
        if th != WORD { Wakeup(q, th); } else { sig := sig[q := true]; }
      }
    }

    /** `thinkos_flag_set_i`: the loop ends with nobody waiting on the flag. */
    method Set(q: nat)
      requires Inv(View()) && 0 < q < |wq| && isFlag[q]
      modifies this
      ensures Inv(View()) && View() == FlagSet(old(View()), q) && wq[q] == {}
    {
      hide Queued, Clocked, FlagsServed, WakeAll, Head;
      SetKeepsInv(View(), q);
      sig := sig[q := true];
      ghost var rt := View();
      SigMattersNot(old(View()), rt);
      WakeNone(rt);
      assert rt.wq[q] - wq[q] == {};
      var th := Head(wq[q]);
      while th != WORD
        invariant Orderly(View()) && |wq| == |rt.wq| && wq[q] <= rt.wq[q]
        invariant View() == WakeAll(rt, rt.wq[q] - wq[q])
        invariant th == Head(wq[q])
        decreases |wq[q]|
      {
        ghost var woken := rt.wq[q] - wq[q];
        HeadIsIn(wq[q]);
        WakeTwice(rt, woken, {th});
        Wakeup(q, th);
        assert woken + {th} == rt.wq[q] - wq[q];
        th := Head(wq[q]);
      }
      MembersAreThreads(View(), q);
      NoHead(View(), wq[q]);
      assert rt.wq[q] - wq[q] == rt.wq[q];
    }

    /** A thread whose time is over leaves the queue that its status names, be it the clock queue itself. */
    method Expire(j: nat)
      requires Orderly(View()) && j in clockq
      modifies this`wq, this`clockq, this`stat
      ensures Orderly(View()) && View() == WakeAll(old(View()), {j}) && |stat| == |old(stat)| && |wq| == |old(wq)|
      ensures clockq == old(clockq) - {j}
    {
      hide Queued, Clocked, WakeAll;
      ClockedWaits(View(), j);
      LeavesItsQueue(View(), j);
      var q := stat[j] / 2;
      stat := stat[j := 0];
      if q < |wq| { wq := wq[q := wq[q] - {j}]; }
      clockq := clockq - {j};
      wq := wq[0 := wq[0] + {j}];
    }

    /** The clock loop of the system tick, over a copy of the clock bitmap. */
    method SysTick()
      requires Inv(View())
      modifies this
      ensures Inv(View()) && View() == Tick(old(View()))
    {
      hide Queued, Clocked, FlagsServed, WakeAll, Head, Due, Expired;
      TickKeepsInv(View());
      ticks := (ticks + 1) % WRAP;
      ghost var rt := View();
      TicksMatterNot(old(View()), rt);
      var left := clockq;
      var j := Head(left);
      ghost var woken: Bitmap := {};
      WakeNone(rt);
      DueNow(rt);
      while j != WORD
        invariant left <= rt.clockq && left <= clockq && Orderly(View())
        invariant clock == rt.clock && ticks == rt.ticks && |stat| == |rt.stat|
        invariant j == Head(left) && woken == Due(rt) - left && View() == WakeAll(rt, woken)
        decreases |left|
      {
        HeadIsIn(left);
        ClockedWaits(View(), j);
        DueLess(rt, left, j);
        left := left - {j};
        if Expired(clock[j], ticks) {
          WakeTwice(rt, woken, {j});
          Expire(j);
          woken := woken + {j};
        }
        j := Head(left);
      }
      NobodyLeft(View(), left);
      assert Due(rt) - left == Due(rt);
    }
  }

  /** What is due before anything is done, and what one turn settles. */
  lemma DueNow(rt: Rt)
    ensures Due(rt) - rt.clockq == {}
  {
  }

  lemma DueLess(rt: Rt, left: Bitmap, j: nat)
    requires j in left && left <= rt.clockq && j < |rt.clock|
    ensures Due(rt) - (left - {j}) == if Expired(rt.clock[j], rt.ticks) then Due(rt) - left + {j} else Due(rt) - left
  {
  }

  lemma NobodyLeft(rt: Rt, left: Bitmap)
    requires Orderly(rt) && left <= rt.clockq && Head(left) == WORD
    ensures left == {}
  {
    NoHead(rt, left);
  }

  lemma TicksMatterNot(a: Rt, b: Rt)
    requires Orderly(a) && b == a.(ticks := b.ticks)
    ensures Orderly(b)
  {
  }

  /** A head that is found is in the bitmap. */
  lemma HeadIsIn(q: Bitmap)
    ensures Head(q) < WORD ==> Head(q) in q
    ensures Head(q) <= WORD
  {
  }

  lemma ClockedWaits(rt: Rt, th: nat)
    requires Orderly(rt) && th in rt.clockq
    ensures th < |rt.stat| && 0 < rt.stat[th] / 2 <= |rt.wq|
    ensures rt.stat[th] / 2 < |rt.wq| ==> th in rt.wq[rt.stat[th] / 2]
  {
    if rt.stat[th] / 2 < |rt.wq| { InQueue(rt, rt.stat[th] / 2, th); }
  }

  /** Waking a thread takes it out of the queue that its status names, and out of no other. */
  lemma LeavesItsQueue(rt: Rt, th: nat)
    requires Orderly(rt) && th < |rt.stat| && 0 < rt.stat[th] / 2
    ensures var q := rt.stat[th] / 2;
      var left := if q < |rt.wq| then rt.wq[q := rt.wq[q] - {th}] else rt.wq;
      WakeAll(rt, {th}) == rt.(wq := left[0 := left[0] + {th}], clockq := rt.clockq - {th}, stat := rt.stat[th := 0])
    ensures Orderly(WakeAll(rt, {th}))
  {
    hide Queued, Clocked;
    WakeKeepsInv(rt, {th});
    var q := rt.stat[th] / 2;
    var left := if q < |rt.wq| then rt.wq[q := rt.wq[q] - {th}] else rt.wq;
    var t := WakeAll(rt, {th});
    forall k | 0 < k < |rt.wq| && k != q
      ensures t.wq[k] == rt.wq[k]
    {
      InQueue(rt, k, th);
    }
    assert t.wq == left[0 := left[0] + {th}];
    assert t.stat == rt.stat[th := 0];
  }

  lemma SigMattersNot(a: Rt, b: Rt)
    requires Orderly(a) && b == a.(sig := b.sig) && |b.sig| == |a.sig|
    ensures Orderly(b)
  {
  }

  /** Waking a thread from its queue touches no other object queue. */
  lemma WakeKeepsOthers(rt: Rt, q: nat, th: nat)
    requires Orderly(rt) && 0 < q < |rt.wq| && th in rt.wq[q]
    ensures th < |rt.stat| && Orderly(WakeAll(rt, {th}))
    ensures WakeAll(rt, {th}) == rt.(wq := rt.wq[0 := rt.wq[0] + {th}][q := rt.wq[q] - {th}],
                                     clockq := rt.clockq - {th}, stat := rt.stat[th := 0])
  {
    hide Queued, Clocked, WakeAll;
    InQueue(rt, q, th);
    LeavesItsQueue(rt, th);
    assert rt.wq[q := rt.wq[q] - {th}][0 := rt.wq[0] + {th}] == rt.wq[0 := rt.wq[0] + {th}][q := rt.wq[q] - {th}];
  }
}
