/**
 * The two ring buffers between the threads and the interrupt handler of the serial port: 64 octets each,
 * with 32-bit indices that run freely and wrap. A thread is interrupted between any two of its accesses;
 * the handler runs to completion.
 */
module UartRing {
  import opened Bytes

  const WRAP := 0x1_0000_0000
  const LEN := 64
  const WATER_MARK := 32

  /** `(int32_t)(head - tail)`. */
  function Signed(head: nat, tail: nat): int
    requires head < WRAP && tail < WRAP
  {
    var d := (head - tail) % WRAP;
    if d < 0x8000_0000 then d else d - WRAP
  }

  /** `index & (LEN - 1)`. */
  function Slot(index: nat): (k: nat)
    ensures k < LEN
  {
    index % LEN
  }

  /** A wrapped index and the count behind it. */
  function Wrapped(count: nat): (index: nat)
    ensures index < WRAP
  {
    count % WRAP
  }

  lemma IndexArithmetic(h: nat, t: nat)
    requires t <= h <= t + LEN
    ensures Signed(Wrapped(h), Wrapped(t)) == h - t
    ensures (Wrapped(h) - Wrapped(t)) % 256 == h - t
  {
    assert (Wrapped(h) - Wrapped(t)) % WRAP == h - t;
    Mod256(Wrapped(h) - Wrapped(t), h - t);
  }

  lemma Mod256(d: int, n: nat)
    requires d % WRAP == n && n < 256
    ensures d % 256 == n
  {
    var q := d / WRAP;
    assert d == q * WRAP + n;
    Rem256(q * 0x100_0000, n);
  }

  lemma Rem256(k: int, n: nat)
    requires n < 256
    ensures (256 * k + n) % 256 == n
  {
  }

  lemma SlotOfWrapped(count: nat)
    ensures Slot(Wrapped(count)) == count % LEN
  {
    var q := count / WRAP;
    assert count == q * WRAP + Wrapped(count);
    assert count == (q * 0x400_0000) * LEN + Wrapped(count);
  }

  lemma NextIndex(count: nat, n: nat)
    requires n <= LEN
    ensures (Wrapped(count) + n) % WRAP == Wrapped(count + n)
  {
  }

  lemma SlotsDiffer(a: nat, b: nat)
    requires a < b < a + LEN
    ensures a % LEN != b % LEN
  {
  }

  // ---------------------------------------------------------------- the ring

  /** Octets number t to h of `all` are in the ring. */
  ghost predicate Holds(buf: seq<byte>, all: seq<byte>, t: nat, h: nat) {
    |buf| == LEN && t <= h <= |all| && h <= t + LEN &&
    forall k :: t <= k < h ==> buf[k % LEN] == all[k]
  }

  lemma StoreKeepsHolds(buf: seq<byte>, all: seq<byte>, t: nat, h: nat, k: nat, c: byte)
    requires Holds(buf, all, t, h) && h <= k < t + LEN
    ensures Holds(buf[k % LEN := c], all, t, h)
  {
    forall j | t <= j < h
      ensures j % LEN != k % LEN
    {
      SlotsDiffer(j, k);
    }
  }

  // ---------------------------------------------------------------- transmission

  /** Where the writing thread is in `serial_write`: `rem` octets are still to go, and of the `free` places
      it has seen it uses n, of which i are filled. */
  datatype Writer =
    | Idle
    | Take(rem: seq<byte>)
    | Blocked(rem: seq<byte>)
    | Look(rem: seq<byte>)
    | Fill(rem: seq<byte>, free: int, n: nat, i: nat)
    | Arm(rem: seq<byte>, free: int, n: nat)
    | Give(rem: seq<byte>, free: int, n: nat)

  /** The ring, the flag and the transmit interrupt; and the octets given to `serial_write`, put in the ring
      and sent so far. */
  datatype Tx = Tx(head: nat, tail: nat, buf: seq<byte>, txie: bool, flag: bool, pc: Writer,
                   offered: seq<byte>, written: seq<byte>, sent: seq<byte>)

  function TxInit(): Tx {
    Tx(0, 0, seq(LEN, _ => 0), false, true, Idle, [], [], [])
  }

  datatype TxStep =
    | Call(data: seq<byte>)
    | TakeFlag
    | LookAround
    | CopyOne
    | Publish
    | ArmInterrupt
    | GiveFlag
    | Txe // the interrupt, with the transmitter ready

  predicate TxShape(s: Tx) {
    s.head < WRAP && s.tail < WRAP && |s.buf| == LEN
  }

  predicate TxEnabled(s: Tx, step: TxStep)
    requires TxShape(s)
  {
    match step
    case Call(_) => s.pc.Idle?
    case TakeFlag => s.pc.Take?
    case LookAround => s.pc.Look?
    case CopyOne => s.pc.Fill? && s.pc.i < s.pc.n <= |s.pc.rem|
    case Publish => s.pc.Fill? && s.pc.i == s.pc.n <= |s.pc.rem|
    case ArmInterrupt => s.pc.Arm?
    case GiveFlag => s.pc.Give? && s.pc.n <= |s.pc.rem|
    case Txe => s.txie
  }

  function TxApply(s: Tx, step: TxStep): (t: Tx)
    requires TxShape(s) && TxEnabled(s, step)
    ensures TxShape(t)
  {
    match step
    case Call(data) => s.(pc := if data == [] then Idle else Take(data), offered := s.offered + data)
    case TakeFlag => if s.flag then s.(flag := false, pc := Look(s.pc.rem)) else s.(pc := Blocked(s.pc.rem))
    case LookAround =>
      var free := LEN - Signed(s.head, s.tail);
      s.(pc := Fill(s.pc.rem, free, if Min(|s.pc.rem|, free) < 0 then 0 else Min(|s.pc.rem|, free), 0))
    case CopyOne =>
      s.(buf := s.buf[Slot((s.head + s.pc.i) % WRAP) := s.pc.rem[s.pc.i]], pc := s.pc.(i := s.pc.i + 1))
    case Publish =>
      s.(head := (s.head + s.pc.n) % WRAP, pc := Arm(s.pc.rem, s.pc.free, s.pc.n),
         written := s.written + s.pc.rem[..s.pc.n])
    case ArmInterrupt => s.(txie := true, pc := Give(s.pc.rem, s.pc.free, s.pc.n))
    case GiveFlag =>
      s.(flag := s.flag || s.pc.free > s.pc.n,
         pc := if |s.pc.rem| == s.pc.n then Idle else Take(s.pc.rem[s.pc.n..]))
    case Txe =>
      if s.tail == s.head then
        s.(txie := false, flag := true, pc := if s.pc.Blocked? then Look(s.pc.rem) else s.pc)
      else
        s.(tail := (s.tail + 1) % WRAP, sent := s.sent + [s.buf[Slot(s.tail)]])
  }

  /** What is still to be written of all that was offered. */
  function Left(pc: Writer): seq<byte>
    requires pc.Arm? || pc.Give? ==> pc.n <= |pc.rem|
  {
    match pc
    case Idle => []
    case Take(rem) => rem
    case Blocked(rem) => rem
    case Look(rem) => rem
    case Fill(rem, _, _, _) => rem
    case Arm(rem, _, n) => rem[n..]
    case Give(rem, _, n) => rem[n..]
  }

  ghost predicate WriterInv(s: Tx) {
    match s.pc
    case Fill(rem, free, n, i) =>
      && i <= n == Min(|rem|, free) && |s.written| + n <= |s.sent| + LEN && |s.buf| == LEN
      && forall j :: |s.written| <= j < |s.written| + i ==> s.buf[j % LEN] == rem[j - |s.written|]
    case Arm(rem, free, n) => n == Min(|rem|, free)
    case Give(rem, free, n) => n == Min(|rem|, free)
    case Blocked(rem) => !s.flag
    case _ => true
  }

  /** The flag is set, or the interrupt will set it, or the writer is about to enable the interrupt. */
  predicate WillBeReleased(s: Tx) {
    s.flag || s.txie || s.pc.Look? || s.pc.Fill? || s.pc.Arm?
  }

  /** What is in the ring will be sent; and a flag that was set while the writer used another means that the
      ring has been empty since. */
  predicate Drains(s: Tx) {
    && (|s.sent| < |s.written| ==> s.txie || s.pc.Arm?) && (s.pc != Idle ==> s.pc.rem != [])
    && (s.flag && (s.pc.Look? || ((s.pc.Fill? || s.pc.Arm? || s.pc.Give?) && s.pc.n == 0)) ==>
          |s.written| < |s.sent| + LEN)
  }

  ghost predicate TxInv(s: Tx) {
    && TxShape(s) && Drains(s)
    && s.head == Wrapped(|s.written|) && s.tail == Wrapped(|s.sent|)
    && Holds(s.buf, s.written, |s.sent|, |s.written|)
    && s.sent == s.written[..|s.sent|]
    && WriterInv(s) && s.offered == s.written + Left(s.pc)
    && WillBeReleased(s)
  }

  lemma CopyKeepsTxInv(s: Tx)
    requires TxInv(s) && TxEnabled(s, CopyOne)
    ensures TxInv(TxApply(s, CopyOne))
  {
    hide Holds, Signed, Wrapped;
    var h, i := |s.written|, s.pc.i;
    HeldBounds(s.buf, s.written, |s.sent|, h);
    NextIndex(h, i);
    SlotOfWrapped(h + i);
    StoreKeepsHolds(s.buf, s.written, |s.sent|, h, h + i, s.pc.rem[i]);
    forall j | h <= j < h + i
      ensures j % LEN != (h + i) % LEN
    {
      SlotsDiffer(j, h + i);
    }
  }

  lemma HeldBounds(buf: seq<byte>, all: seq<byte>, t: nat, h: nat)
    requires Holds(buf, all, t, h)
    ensures |buf| == LEN && t <= h <= |all| && h <= t + LEN
  {
  }

  lemma MoreHeld(buf: seq<byte>, all: seq<byte>, t: nat, rem: seq<byte>, n: nat)
    requires Holds(buf, all, t, |all|) && n <= |rem| && |all| + n <= t + LEN && |buf| == LEN
    requires forall j :: |all| <= j < |all| + n ==> buf[j % LEN] == rem[j - |all|]
    ensures Holds(buf, all + rem[..n], t, |all| + n)
  {
  }

  lemma PublishKeepsTxInv(s: Tx)
    requires TxInv(s) && TxEnabled(s, Publish)
    ensures TxInv(TxApply(s, Publish))
  {
    hide Holds, Signed, Slot, Wrapped;
    var t := TxApply(s, Publish);
    var rem, n := s.pc.rem, s.pc.n;
    HeldBounds(s.buf, s.written, |s.sent|, |s.written|);
    NextIndex(|s.written|, n);
    MoreHeld(s.buf, s.written, |s.sent|, rem, n);
    assert s.written + rem == (s.written + rem[..n]) + rem[n..] by { assert rem == rem[..n] + rem[n..]; }
    assert t.written[..|t.sent|] == s.written[..|s.sent|];
  }

  lemma TxeKeepsTxInv(s: Tx)
    requires TxInv(s) && TxEnabled(s, Txe)
    ensures TxInv(TxApply(s, Txe))
    ensures s.tail == s.head <==> |s.sent| == |s.written|
  {
    IndexArithmetic(|s.written|, |s.sent|);
    SlotOfWrapped(|s.sent|);
    NextIndex(|s.sent|, 1);
    var t := TxApply(s, Txe);
    if s.tail != s.head {
      assert s.written[..|s.sent| + 1] == s.written[..|s.sent|] + [s.written[|s.sent|]];
    }
  }

  lemma TxStepKeepsInv(s: Tx, step: TxStep)
    requires TxInv(s) && TxEnabled(s, step)
    ensures TxInv(TxApply(s, step))
  {
    match step
    case Call(data) => assert s.written + [] == s.written;
    case TakeFlag =>
    case LookAround => IndexArithmetic(|s.written|, |s.sent|);
    case CopyOne => CopyKeepsTxInv(s);
    case Publish => PublishKeepsTxInv(s);
    case ArmInterrupt =>
    case GiveFlag => assert s.pc.n == |s.pc.rem| ==> s.pc.rem[s.pc.n..] == [];
    case Txe => TxeKeepsTxInv(s);
  }

  /** A turn of the writer takes as many of its octets as there are free places, and no fewer. */
  lemma WriterTakesAllItCan(s: Tx)
    requires TxInv(s) && TxEnabled(s, LookAround)
    ensures var free := LEN - (|s.written| - |s.sent|);
      TxApply(s, LookAround) == s.(pc := Fill(s.pc.rem, free, Min(|s.pc.rem|, free), 0))
  {
    IndexArithmetic(|s.written|, |s.sent|);
  }

  ghost predicate TxPossible(s: Tx, run: seq<TxStep>)
    decreases |run|
  {
    run == [] || (TxShape(s) && TxEnabled(s, run[0]) && TxPossible(TxApply(s, run[0]), run[1..]))
  }

  ghost function TxFinal(s: Tx, run: seq<TxStep>): Tx
    requires TxPossible(s, run)
    decreases |run|
  {
    if run == [] then s else TxFinal(TxApply(s, run[0]), run[1..])
  }

  lemma {:induction false} TxRunKeepsInv(s: Tx, run: seq<TxStep>)
    requires TxInv(s) && TxPossible(s, run)
    ensures TxInv(TxFinal(s, run))
    decreases |run|
  {
    if run != [] {
      TxStepKeepsInv(s, run[0]);
      TxRunKeepsInv(TxApply(s, run[0]), run[1..]);
    }
  }

  /** For every interleaving of writer and interrupts, however often the indices have wrapped: the ring holds
      between 0 and 64 octets, what has been sent is what was given to `serial_write`, in order, up to
      there, a writer that waits for the flag has the interrupt enabled that will set it, and a call that has
      returned has put all it was given in the ring. */
  lemma SentInOrder(run: seq<TxStep>)
    requires TxPossible(TxInit(), run)
    ensures var s := TxFinal(TxInit(), run);
      && TxShape(s) && 0 <= Signed(s.head, s.tail) <= LEN
      && s.sent <= s.written <= s.offered
      && |s.written| - |s.sent| == Signed(s.head, s.tail)
      && (s.pc.Blocked? ==> s.txie) && (s.pc.Idle? ==> s.written == s.offered)
  {
    TxRunKeepsInv(TxInit(), run);
    var s := TxFinal(TxInit(), run);
    IndexArithmetic(|s.written|, |s.sent|);
  }

  // ---- every call returns

  /** The octets of the writer's turn that are not given back yet. */
  function InHand(pc: Writer): nat {
    match pc
    case Idle => 0
    case _ => |pc.rem|
  }

  /** A turn may be for nothing: with the flag set and the ring full. */
  function Vain(s: Tx): nat {
    var full := |s.written| >= |s.sent| + LEN;
    match s.pc
    case Take(_) => if s.flag && full then 1 else 0
    case Look(_) => if full then 1 else 0
    case Fill(_, _, n, _) => if n == 0 then 1 else 0
    case Arm(_, _, n) => if n == 0 then 1 else 0
    case Give(_, _, n) => if n == 0 then 1 else 0
    case _ => 0
  }

  function Phase(pc: Writer): int {
    match pc
    case Idle => 0
    case Take(_) => 72
    case Blocked(_) => 71
    case Look(_) => 70
    case Fill(_, _, n, i) => 3 + n - i
    case Arm(_, _, _) => 2
    case Give(_, _, _) => 1
  }

  /** At most so many steps can be made before the next call. */
  function StepsLeft(s: Tx): int {
    |s.offered| - |s.sent| + 1000 * InHand(s.pc) + 200 * Vain(s) + 2 * Phase(s.pc) + (if s.txie then 1 else 0)
  }

  lemma StepsAreLeft(s: Tx)
    requires TxInv(s)
    ensures StepsLeft(s) >= 0
  {
    hide Holds, Wrapped;
    HeldBounds(s.buf, s.written, |s.sent|, |s.written|);
  }

  lemma TxeLeadsOn(s: Tx)
    requires TxInv(s) && TxEnabled(s, Txe)
    ensures StepsLeft(TxApply(s, Txe)) < StepsLeft(s)
  {
    hide Holds, Signed, Wrapped, Slot;
    TxeKeepsTxInv(s);
  }

  lemma GiveLeadsOn(s: Tx)
    requires TxInv(s) && TxEnabled(s, GiveFlag)
    ensures StepsLeft(TxApply(s, GiveFlag)) < StepsLeft(s)
  {
    hide Holds, Signed, Wrapped, Slot;
    HeldBounds(s.buf, s.written, |s.sent|, |s.written|);
  }

  /** Every step but a call leads on: the writer's, with the flag set, clear or set in vain, and the
      interrupt's. */
  lemma StepLeadsOn(s: Tx, step: TxStep)
    requires TxInv(s) && TxEnabled(s, step) && !step.Call?
    ensures StepsLeft(TxApply(s, step)) < StepsLeft(s)
  {
    hide Holds, Signed, Wrapped, Slot;
    HeldBounds(s.buf, s.written, |s.sent|, |s.written|);
    match step
    case LookAround => WriterTakesAllItCan(s);
    case GiveFlag => GiveLeadsOn(s);
    case Txe => TxeLeadsOn(s);
    case _ =>
  }

  predicate NoCall(run: seq<TxStep>) {
    forall i :: 0 <= i < |run| ==> !run[i].Call?
  }

  lemma {:induction false} RunsAreShort(s: Tx, run: seq<TxStep>)
    requires TxInv(s) && TxPossible(s, run) && NoCall(run)
    ensures TxInv(TxFinal(s, run)) && |run| + StepsLeft(TxFinal(s, run)) <= StepsLeft(s)
    decreases |run|
  {
    hide TxInv, StepsLeft, TxApply, TxEnabled;
    if run != [] {
      TxStepKeepsInv(s, run[0]);
      StepLeadsOn(s, run[0]);
      RunsAreShort(TxApply(s, run[0]), run[1..]);
    }
  }

  /** Nothing is left to be done but another call. */
  ghost predicate AtRest(s: Tx)
    requires TxShape(s)
  {
    forall step :: TxEnabled(s, step) ==> step.Call?
  }

  /** Every call returns and all its octets are sent: after a call only so many steps of writer and interrupt
      are possible, in whatever order, and when there is none left, the writer has returned and every octet
      that was given to it has been sent. */
  lemma AllIsSent(s: Tx, run: seq<TxStep>)
    requires TxInv(s) && TxPossible(s, run) && NoCall(run)
    ensures |run| <= StepsLeft(s)
    ensures var t := TxFinal(s, run); TxShape(t) && (AtRest(t) ==> t.pc == Idle && t.sent == s.offered)
  {
    RunsAreShort(s, run);
    var t := TxFinal(s, run);
    StepsAreLeft(t);
    OfferedStays(s, run);
    if AtRest(t) {
      var step := match t.pc
        case Take(_) => TakeFlag
        case Look(_) => LookAround
        case Fill(_, _, n, i) => if i < n then CopyOne else Publish
        case Arm(_, _, _) => ArmInterrupt
        case Give(_, _, _) => GiveFlag
        case _ => Txe;
      assert !TxEnabled(t, step) && !TxEnabled(t, Txe);
    }
  }

  lemma {:induction false} OfferedStays(s: Tx, run: seq<TxStep>)
    requires TxPossible(s, run) && NoCall(run)
    ensures TxFinal(s, run).offered == s.offered
    decreases |run|
  {
    if run != [] { OfferedStays(TxApply(s, run[0]), run[1..]); }
  }

  /** A writer that leaves places free leaves the flag set for the next. */
  lemma PlacesLeftAreOffered(s: Tx)
    requires TxInv(s) && TxEnabled(s, GiveFlag)
    ensures TxApply(s, GiveFlag).flag <==> s.flag || s.pc.n < s.pc.free
  {
  }

  /** Such a writer runs again after as many interrupts as there are octets in the ring, and one more. */
  lemma {:induction false} BlockedWriterRunsAgain(s: Tx)
    requires TxInv(s) && s.pc.Blocked?
    ensures var run := seq(|s.written| - |s.sent| + 1, _ => Txe);
      && TxPossible(s, run) && TxFinal(s, run).pc == Look(s.pc.rem)
      && TxFinal(s, run).sent == s.written
    decreases |s.written| - |s.sent|
  {
    var run: seq<TxStep> := seq(|s.written| - |s.sent| + 1, _ => Txe);
    TxeKeepsTxInv(s);
    var t := TxApply(s, Txe);
    assert run[0] == Txe;
    if s.tail == s.head {
      assert run[1..] == [];
    } else {
      BlockedWriterRunsAgain(t);
      assert run[1..] == seq(|t.written| - |t.sent| + 1, _ => Txe);
    }
  }

  // ---------------------------------------------------------------- reception

  /** Where the reading thread is in `serial_read`: it is asked for len octets at most, has seen cnt in the
      ring, takes n of them, and has copied `got` so far. */
  datatype Reader =
    | Resting
    | Await(len: nat)
    | Asleep(len: nat)
    | Peek(len: nat)
    | Drain(len: nat, cnt: nat, n: nat, got: seq<byte>)
    | Announce(len: nat, cnt: nat, n: nat)

  /** What a call was asked for, how many octets waited when it looked, and those it returned. */
  datatype Reading = Reading(len: nat, seen: int, octets: seq<byte>)

  /** The ring and the flag; and the octets the handler has put in the ring and the reader has taken out, how
      many waited when the reader last looked, and what its calls have returned. */
  datatype Rx = Rx(head: nat, tail: nat, buf: seq<byte>, flag: bool, pc: Reader, accepted: seq<byte>, taken: seq<byte>,
                   seen: int, readings: seq<Reading>)

  function RxInit(): Rx {
    Rx(0, 0, seq(LEN, _ => 0), false, Resting, [], [], 0, [])
  }

  datatype RxStep =
    | Read(len: nat)
    | AwaitFlag
    | TimeOut
    | PeekAround
    | DrainOne
    | Release
    | AnnounceRest
    | Rxne(c: byte) // the interrupt, with an octet received
    | LineIdle      // the interrupt, with the line idle

  predicate RxShape(s: Rx) {
    s.head < WRAP && s.tail < WRAP && |s.buf| == LEN
  }

  predicate RxEnabled(s: Rx, step: RxStep)
    requires RxShape(s)
  {
    match step
    case Read(_) => s.pc.Resting?
    case AwaitFlag => s.pc.Await?
    case TimeOut => s.pc.Asleep?
    case PeekAround => s.pc.Peek?
    case DrainOne => s.pc.Drain? && |s.pc.got| < s.pc.n
    case Release => s.pc.Drain? && |s.pc.got| == s.pc.n
    case AnnounceRest => s.pc.Announce?
    case Rxne(_) => true
    case LineIdle => true
  }

  /** `thinkos_flag_give`: a sleeping reader is woken and the flag stays clear, or else the flag is set. */
  function GiveRx(s: Rx): Rx {
    if s.flag then s else if s.pc.Asleep? then s.(pc := Peek(s.pc.len)) else s.(flag := true)
  }

  /** How many octets wait in the ring. */
  function Waiting(s: Rx): int {
    |s.accepted| - |s.taken|
  }

  function RxApply(s: Rx, step: RxStep): (t: Rx)
    requires RxShape(s) && RxEnabled(s, step)
    ensures RxShape(t)
  {
    match step
    case Read(len) => s.(pc := Await(len))
    case AwaitFlag => if s.flag then s.(flag := false, pc := Peek(s.pc.len)) else s.(pc := Asleep(s.pc.len))
    case TimeOut => s.(pc := Resting)
    case PeekAround =>
      var cnt := Signed(s.head, s.tail);
      if cnt <= 0 then s.(pc := Await(s.pc.len))
      else s.(pc := Drain(s.pc.len, cnt, Min(s.pc.len, cnt), []), seen := Waiting(s))
    case DrainOne =>
      s.(pc := s.pc.(got := s.pc.got + [s.buf[Slot((s.tail + |s.pc.got|) % WRAP)]]))
    case Release =>
      s.(tail := (s.tail + s.pc.n) % WRAP, taken := s.taken + s.pc.got, pc := Announce(s.pc.len, s.pc.cnt, s.pc.n),
         readings := s.readings + [Reading(s.pc.len, s.seen, s.pc.got)])
    case AnnounceRest =>
      (if s.pc.cnt > s.pc.n then GiveRx(s) else s).(pc := Resting)
    case Rxne(c) =>
      var free := LEN - (s.head - s.tail) % 256;
      var t :=
        if free > 0 then s.(buf := s.buf[Slot(s.head) := c], head := (s.head + 1) % WRAP, accepted := s.accepted + [c])
        else s;
      if free < LEN - WATER_MARK then GiveRx(t) else t
    case LineIdle => GiveRx(s)
  }

  /** More than 33 octets never wait without the flag or a reader on its way to them. */
  ghost predicate ReaderInv(s: Rx) {
    match s.pc
    case Resting => s.flag || Waiting(s) <= WATER_MARK + 1
    case Await(_) => s.flag || Waiting(s) <= WATER_MARK + 1
    case Asleep(_) => !s.flag && Waiting(s) <= WATER_MARK + 1
    case Peek(_) => true
    case Drain(len, cnt, n, got) =>
      && |got| <= n <= cnt <= Waiting(s) && n == Min(len, cnt) && cnt == s.seen > 0
      && (s.flag || Waiting(s) <= WATER_MARK + 1 || Waiting(s) == cnt)
      && |s.taken| + |got| <= |s.accepted| && got == s.accepted[|s.taken|..|s.taken| + |got|]
    case Announce(_, cnt, n) => s.flag || cnt > n || Waiting(s) <= WATER_MARK + 1
  }

  /** The part of the invariant that the flag and the reader do not matter for. */
  ghost predicate RxRing(s: Rx) {
    && RxShape(s)
    && s.head == Wrapped(|s.accepted|) && s.tail == Wrapped(|s.taken|)
    && Holds(s.buf, s.accepted, |s.taken|, |s.accepted|)
    && s.taken == s.accepted[..|s.taken|]
  }

  function Flat(rs: seq<Reading>): seq<byte> {
    if rs == [] then [] else Flat(rs[..|rs| - 1]) + rs[|rs| - 1].octets
  }

  /** Each call returned what it was asked for, or all that waited, whichever is less, and at least one octet
      waited; together they returned all that has been taken out. */
  ghost predicate Measured(s: Rx) {
    && (forall i :: 0 <= i < |s.readings| ==>
          var r := s.readings[i]; r.seen > 0 && |r.octets| == Min(r.len, r.seen))
    && Flat(s.readings) == s.taken
  }

  ghost predicate RxInv(s: Rx) {
    RxRing(s) && ReaderInv(s) && Measured(s)
  }

  /** After the flag is given, all may wait that there is. */
  lemma GiveSettles(s: Rx)
    requires RxRing(s) && (s.pc.Asleep? ==> !s.flag) && Measured(s)
    requires s.pc.Drain? ==> |s.pc.got| <= s.pc.n <= s.pc.cnt <= Waiting(s) && |s.taken| + |s.pc.got| <= |s.accepted|
    requires s.pc.Drain? ==> s.pc.n == Min(s.pc.len, s.pc.cnt) && s.pc.cnt == s.seen > 0
    requires s.pc.Drain? ==> s.pc.got == s.accepted[|s.taken|..|s.taken| + |s.pc.got|]
    ensures RxInv(GiveRx(s))
  {
    hide Holds;
  }

  lemma RxneStores(s: Rx, c: byte)
    requires RxRing(s) && Waiting(s) < LEN
    ensures RxRing(s.(buf := s.buf[Slot(s.head) := c], head := (s.head + 1) % WRAP, accepted := s.accepted + [c]))
  {
    var h := |s.accepted|;
    SlotOfWrapped(h);
    NextIndex(h, 1);
    StoreKeepsHolds(s.buf, s.accepted, |s.taken|, h, h, c);
    var more := s.accepted + [c];
    assert more[..|s.taken|] == s.accepted[..|s.taken|];
  }

  lemma RxneKeepsRxInv(s: Rx, c: byte)
    requires RxInv(s)
    ensures RxInv(RxApply(s, Rxne(c)))
  {
    hide Holds, Slot, Wrapped, Signed, GiveRx;
    RingCount(s);
    var free := LEN - (s.head - s.tail) % 256;
    assert free == LEN - Waiting(s);
    if free > 0 {
      RxneStores(s, c);
      var t := s.(buf := s.buf[Slot(s.head) := c], head := (s.head + 1) % WRAP, accepted := s.accepted + [c]);
      if s.pc.Drain? {
        GotStays(s.accepted, c, |s.taken|, |s.pc.got|);
      }
      if free < LEN - WATER_MARK { GiveSettles(t); }
    } else {
      GiveSettles(s);
    }
  }

  lemma GotStays(all: seq<byte>, c: byte, from: nat, n: nat)
    requires from + n <= |all|
    ensures (all + [c])[from..from + n] == all[from..from + n]
  {
  }

  /** What the handler and the reader compute from the indices. */
  lemma RingCount(s: Rx)
    requires RxRing(s)
    ensures 0 <= Waiting(s) <= LEN
    ensures Signed(s.head, s.tail) == Waiting(s) == (s.head - s.tail) % 256
  {
    IndexArithmetic(|s.accepted|, |s.taken|);
  }

  lemma OctetHeld(buf: seq<byte>, all: seq<byte>, t: nat, h: nat, k: nat)
    requires Holds(buf, all, t, h) && t <= k < h
    ensures |buf| == LEN && buf[k % LEN] == all[k]
  {
  }

  lemma SameMeasure(s: Rx, t: Rx)
    requires Measured(s) && t.readings == s.readings && t.taken == s.taken
    ensures Measured(t)
  {
  }

  lemma DrainKeepsRxInv(s: Rx)
    requires RxInv(s) && RxEnabled(s, DrainOne)
    ensures RxInv(RxApply(s, DrainOne))
  {
    hide Holds, Slot, Wrapped, Signed, Measured;
    SameMeasure(s, RxApply(s, DrainOne));
    var k := |s.taken| + |s.pc.got|;
    RingCount(s);
    NextIndex(|s.taken|, |s.pc.got|);
    SlotOfWrapped(k);
    OctetHeld(s.buf, s.accepted, |s.taken|, |s.accepted|, k);
    assert s.accepted[|s.taken|..k + 1] == s.accepted[|s.taken|..k] + [s.accepted[k]];
  }

  lemma ReleaseKeepsRxInv(s: Rx)
    requires RxInv(s) && RxEnabled(s, Release)
    ensures RxInv(RxApply(s, Release))
  {
    hide Flat, Holds, Signed, Wrapped;
    RingCount(s);
    NextIndex(|s.taken|, s.pc.n);
    var k := |s.taken| + s.pc.n;
    HeldLess(s.buf, s.accepted, |s.taken|, k, |s.accepted|);
    assert s.accepted[..k] == s.accepted[..|s.taken|] + s.accepted[|s.taken|..k];
    OneMore(s.readings, Reading(s.pc.len, s.seen, s.pc.got));
  }

  lemma HeldLess(buf: seq<byte>, all: seq<byte>, t: nat, k: nat, h: nat)
    requires Holds(buf, all, t, h) && t <= k <= h
    ensures Holds(buf, all, k, h)
  {
  }

  lemma OneMore(rs: seq<Reading>, r: Reading)
    ensures Flat(rs + [r]) == Flat(rs) + r.octets
  {
    assert (rs + [r])[..|rs|] == rs;
  }

  /** The interrupt drops an octet exactly if 64 wait; it tells the reader if more than 32 waited. */
  lemma HandlerKeepsWhatFits(s: Rx, c: byte)
    requires RxInv(s)
    ensures var t := RxApply(s, Rxne(c));
      && t.accepted == (if Waiting(s) < LEN then s.accepted + [c] else s.accepted)
      && t.taken == s.taken && t.readings == s.readings
      && (if Waiting(s) > WATER_MARK then !t.pc.Asleep? && (s.pc.Asleep? || t.flag)
          else t.pc == s.pc && t.flag == s.flag)
  {
    hide Holds, Slot, Wrapped, Signed, Measured;
    RingCount(s);
  }

  /** So it does when the line falls silent, however few there are. */
  lemma SilenceTells(s: Rx)
    requires RxInv(s)
    ensures var t := RxApply(s, LineIdle); !t.pc.Asleep? && (s.pc.Asleep? || t.flag) && t.accepted == s.accepted
  {
    hide Holds, Slot, Wrapped, Signed, Measured;
  }

  lemma RxStepKeepsInv(s: Rx, step: RxStep)
    requires RxInv(s) && RxEnabled(s, step)
    ensures RxInv(RxApply(s, step))
  {
    match step
    case Read(_) =>
    case AwaitFlag =>
    case TimeOut =>
    case PeekAround =>
      RingCount(s);
      assert s.accepted[|s.taken|..|s.taken|] == [];
    case DrainOne => DrainKeepsRxInv(s);
    case Release => ReleaseKeepsRxInv(s);
    case AnnounceRest => if s.pc.cnt > s.pc.n { GiveSettles(s); }
    case Rxne(c) => RxneKeepsRxInv(s, c);
    case LineIdle => GiveSettles(s);
  }

  /** A reader that finds octets takes them all, up to the length it was asked for; one that leaves some
      leaves the flag set for the next. */
  lemma ReaderTakesAllItCan(s: Rx, step: RxStep)
    requires RxInv(s) && RxEnabled(s, step)
    ensures step == PeekAround && Waiting(s) > 0 ==>
      var n := Waiting(s); RxApply(s, step).pc == Drain(s.pc.len, n, Min(s.pc.len, n), [])
    ensures step == AnnounceRest ==> (RxApply(s, step).flag <==> s.flag || s.pc.n < s.pc.cnt)
    ensures step.Read? ==> RxApply(s, step) == s.(pc := Await(step.len))
  {
    RingCount(s);
  }

  function RxPhase(pc: Reader): int {
    match pc
    case Resting => 0
    case Announce(_, _, _) => 300
    case Drain(_, _, n, got) => 301 + n - |got|
    case Asleep(_) => 380
    case Await(_) => 390
    case Peek(_) => 400
  }

  /** At most so many steps of its own can the reader make in a call, if no interrupt comes. */
  function RxStepsLeft(s: Rx): int {
    RxPhase(s.pc) + if s.flag then 200 else 0
  }

  predicate OfReader(step: RxStep) {
    !step.Rxne? && !step.LineIdle? && !step.Read?
  }

  /** Every step of the reader leads on, and an interrupt adds no more than a bounded number. */
  lemma RxStepLeadsOn(s: Rx, step: RxStep)
    requires RxInv(s) && RxEnabled(s, step) && !step.Read?
    ensures RxStepsLeft(RxApply(s, step)) <= if OfReader(step) then RxStepsLeft(s) - 1 else RxStepsLeft(s) + 200
  {
    hide Holds, Wrapped, Signed, Slot, Measured;
    RingCount(s);
  }

  /** How many of the steps the reader makes, and how many the interrupt. */
  function OwnSteps(run: seq<RxStep>): nat {
    if run == [] then 0 else (if OfReader(run[0]) then 1 else 0) + OwnSteps(run[1..])
  }

  ghost predicate RxPossible(s: Rx, run: seq<RxStep>)
    decreases |run|
  {
    run == [] || (RxShape(s) && RxEnabled(s, run[0]) && RxPossible(RxApply(s, run[0]), run[1..]))
  }

  ghost function RxFinal(s: Rx, run: seq<RxStep>): Rx
    requires RxPossible(s, run)
    decreases |run|
  {
    if run == [] then s else RxFinal(RxApply(s, run[0]), run[1..])
  }

  lemma {:induction false} RxRunKeepsInv(s: Rx, run: seq<RxStep>)
    requires RxInv(s) && RxPossible(s, run)
    ensures RxInv(RxFinal(s, run))
    decreases |run|
  {
    if run != [] {
      RxStepKeepsInv(s, run[0]);
      RxRunKeepsInv(RxApply(s, run[0]), run[1..]);
    }
  }

  /** Every call returns: it makes at most 600 steps, and 200 more for each interrupt that comes meanwhile, and
      until it has returned one more is possible. */
  lemma {:induction false} CallReturns(s: Rx, run: seq<RxStep>)
    requires RxInv(s) && RxPossible(s, run) && forall i :: 0 <= i < |run| ==> !run[i].Read?
    ensures OwnSteps(run) <= RxStepsLeft(s) - RxStepsLeft(RxFinal(s, run)) + 200 * (|run| - OwnSteps(run))
    ensures 0 <= RxStepsLeft(RxFinal(s, run)) && RxStepsLeft(s) <= 600
    ensures var t := RxFinal(s, run);
      t.pc != Resting ==> RxShape(t) && exists step :: OfReader(step) && RxEnabled(t, step)
    decreases |run|
  {
    hide Holds, Wrapped, Signed, Slot, Measured, RxApply;
    ReaderBounds(s);
    if run != [] {
      RxStepKeepsInv(s, run[0]);
      RxStepLeadsOn(s, run[0]);
      CallReturns(RxApply(s, run[0]), run[1..]);
    }
  }

  lemma ReaderBounds(s: Rx)
    requires RxInv(s)
    ensures 0 <= RxStepsLeft(s) <= 600
    ensures s.pc != Resting ==> RxShape(s) && exists step :: OfReader(step) && RxEnabled(s, step)
  {
    RingCount(s);
    var step := match s.pc
      case Await(_) => AwaitFlag
      case Asleep(_) => TimeOut
      case Peek(_) => PeekAround
      case Drain(_, _, n, got) => if |got| < n then DrainOne else Release
      case Announce(_, _, _) => AnnounceRest
      case _ => LineIdle;
    assert RxEnabled(s, step);
  }

  /** What the last call of a run asked for, if there is one. */
  function Asked(before: nat, run: seq<RxStep>): nat
    decreases |run|
  {
    if run == [] then before else Asked(if run[0].Read? then run[0].len else before, run[1..])
  }

  /** The reader remembers it until it has returned. */
  predicate Remembers(s: Rx, len: nat) {
    (!s.pc.Resting? ==> s.pc.len == len) &&
    (s.pc.Announce? ==> s.readings != [] && s.readings[|s.readings| - 1].len == len)
  }

  lemma {:induction false} LengthRemembered(s: Rx, len: nat, run: seq<RxStep>)
    requires RxPossible(s, run) && Remembers(s, len)
    ensures Remembers(RxFinal(s, run), Asked(len, run))
    decreases |run|
  {
    if run != [] {
      LengthRemembered(RxApply(s, run[0]), if run[0].Read? then run[0].len else len, run[1..]);
    }
  }

  /** For every interleaving of reader and interrupts: the ring holds between 0 and 64 octets, what
      `serial_read` has returned is what the handler has accepted, in order, up to there, and no reader
      sleeps while more than 33 octets wait. Each call that returned octets returned exactly as many as it
      asked for or as waited when it looked, whichever is less. */
  lemma ReadInOrder(run: seq<RxStep>)
    requires RxPossible(RxInit(), run)
    ensures var s := RxFinal(RxInit(), run);
      && RxShape(s) && 0 <= Signed(s.head, s.tail) <= LEN
      && s.taken <= s.accepted && |s.accepted| - |s.taken| == Signed(s.head, s.tail)
      && (s.pc.Asleep? ==> Signed(s.head, s.tail) <= WATER_MARK + 1)
      && Measured(s) && Remembers(s, Asked(0, run))
  {
    RxRunKeepsInv(RxInit(), run);
    LengthRemembered(RxInit(), 0, run);
    RingCount(RxFinal(RxInit(), run));
  }
}
