/**
 * The CONNECTED state of the BACnet point-to-point link (10.4.9 of ANSI/ASHRAE 135): the stop-and-wait
 * transmitter of `bacnet_ptp_task` and `bacnet_ptp_send`, run against a standard alternating-bit
 * peer over two first-in first-out channels that may lose any frame.
 */
module BacnetLink {
  import opened Bytes

  type Pdu = seq<byte>

  const MTU := 512
  const RXMT_MAX := 3
  const SEQ_MOD := 0x1_0000_0000

  /** DATA_0 and DATA_1. */
  datatype Frame = Data(bit: nat, pdu: Pdu)

  /** DATA_ACK, DATA_NAK and HEARTBEAT in their XON and XOFF forms. */
  datatype Reply = Ack(bit: nat, xon: bool) | Nak(bit: nat, xon: bool) | Heartbeat(xon: bool)

  // ---------------------------------------------------------------- the transmitter

  /** `lnk->tx`. A sender that has filled the buffer and not yet reached its own transmission is
      `sending`; `flag` is the token of `tx.flag`. */
  datatype Tx = Tx(seqno: nat, len: nat, buf: Pdu, xon: bool, rxmtCnt: nat, flag: bool, sending: bool)

  /** `wait_connect`: nothing pending, the token given, the first sequence bit is 1. */
  function TxInit(): Tx {
    Tx(1, 0, seq(MTU, _ => 0), false, 0, true, false)
  }

  /** The frame `bacnet_ptp_frame_send` is given, here and in every retransmission. */
  function Pending(t: Tx): Frame
    requires t.len <= |t.buf|
  {
    Data(t.seqno % 2, t.buf[..t.len])
  }

  /** `bacnet_ptp_send` up to the point where `tx.len` is set. The token is gone even when the
      buffer turns out to be in use, and the sender waits for the next one. */
  function TakeSlot(t: Tx, pdu: Pdu): Tx
    requires t.flag && !t.sending && |pdu| <= |t.buf|
  {
    if t.len == 0 then
      t.(flag := false, rxmtCnt := 0, buf := pdu + t.buf[|pdu|..], len := |pdu|, sending := true)
    else
      t.(flag := false)
  }

  /** The rest of `bacnet_ptp_send`: transmit at once if the remote side has its reception on. */
  function FirstTransmission(t: Tx): (r: (Tx, seq<Frame>))
    requires t.sending && t.len <= |t.buf|
  {
    (t.(sending := false), if t.xon then [Pending(t)] else [])
  }

  /** A frame that arrives in the CONNECTED state. */
  function OnReply(t: Tx, reply: Reply): (r: (Tx, seq<Frame>))
    requires t.len <= |t.buf|
  {
    match reply
    case Heartbeat(xon) => (t.(xon := xon), [])
    case Ack(bit, xon) =>
      if xon && t.seqno % 2 == bit then (t.(seqno := (t.seqno + 1) % SEQ_MOD, len := 0, flag := true), []) else (t, [])
    case Nak(bit, xon) =>
      (t, if xon && t.seqno % 2 == bit then [Pending(t)] else [])
  }

  /** A receive timeout that finds the retransmission timer run out. */
  function OnTimer(t: Tx): (r: (Tx, seq<Frame>))
    requires t.len <= |t.buf|
  {
    if t.len == 0 then (t, [])
    else if t.rxmtCnt + 1 < RXMT_MAX then (t.(rxmtCnt := t.rxmtCnt + 1), if t.xon then [Pending(t)] else [])
    else (t.(rxmtCnt := t.rxmtCnt + 1, len := 0, flag := true), [])
  }

  predicate GivesUp(t: Tx) {
    t.len != 0 && t.rxmtCnt + 1 >= RXMT_MAX
  }

  // ---------------------------------------------------------------- the whole system

  datatype System = System(
    tx: Tx,
    data: seq<Frame>,            // towards the peer, oldest first
    replies: seq<Reply>,         // from the peer, oldest first
    peerBit: nat,                // the bit the peer expects next
    delivered: seq<Pdu>,         // what the peer has passed up
    accepted: seq<Pdu>,          // what `bacnet_ptp_send` has taken
    acked: nat,                  // how many of these an acknowledgement has closed
    gaveUp: bool,                // the transmitter has given up at least once
    overtaken: bool              // a PDU was acknowledged, thanks to the timer, before its sender had transmitted it
  )

  function Initial(): System {
    System(TxInit(), [], [], 1, [], [], 0, false, false)
  }

  datatype Step =
    | Send(pdu: Pdu)             // a thread passes the token in bacnet_ptp_send
    | Transmit                   // and reaches its frame_send
    | Receive                    // the link task receives the oldest reply
    | Timer                      // the link task times out, the timer has run out
    | LoseData(i: nat)
    | LoseReply(i: nat)
    | PeerTakes(xon: bool)       // the peer receives the oldest frame and acknowledges it
    | PeerRefuses(xon: bool)     // the peer cannot take it and says so
    | PeerBeats(xon: bool)       // the peer sends a heartbeat

  predicate Enabled(s: System, step: Step) {
    match step
    case Send(pdu) => s.tx.flag && !s.tx.sending && |pdu| <= |s.tx.buf|
    case Transmit => s.tx.sending && s.tx.len <= |s.tx.buf|
    case Receive => s.replies != [] && s.tx.len <= |s.tx.buf|
    case Timer => s.tx.len <= |s.tx.buf|
    case LoseData(i) => i < |s.data|
    case LoseReply(i) => i < |s.replies|
    case PeerTakes(_) => s.data != []
    case PeerRefuses(_) => s.data != []
    case PeerBeats(_) => true
  }

  function Remove<T>(q: seq<T>, i: nat): seq<T>
    requires i < |q|
  {
    q[..i] + q[i + 1..]
  }

  function Apply(s: System, step: Step): System
    requires Enabled(s, step)
  {
    match step
    case Send(pdu) =>
      s.(tx := TakeSlot(s.tx, pdu), accepted := if s.tx.len == 0 then s.accepted + [pdu] else s.accepted)
    case Transmit =>
      var (tx, out) := FirstTransmission(s.tx);
      s.(tx := tx, data := s.data + out)
    case Receive =>
      var (tx, out) := OnReply(s.tx, s.replies[0]);
      s.(tx := tx, data := s.data + out, replies := s.replies[1..],
         acked := if tx.seqno != s.tx.seqno then s.acked + 1 else s.acked,
         overtaken := s.overtaken || (tx.seqno != s.tx.seqno && s.tx.sending))
    case Timer =>
      var (tx, out) := OnTimer(s.tx);
      s.(tx := tx, data := s.data + out, gaveUp := s.gaveUp || GivesUp(s.tx))
    case LoseData(i) => s.(data := Remove(s.data, i))
    case LoseReply(i) => s.(replies := Remove(s.replies, i))
    case PeerTakes(xon) =>
      var f := s.data[0];
      var t := s.(data := s.data[1..], replies := s.replies + [Ack(f.bit, xon)]);
      if f.bit == s.peerBit then t.(delivered := s.delivered + [f.pdu], peerBit := (s.peerBit + 1) % 2) else t
    case PeerRefuses(xon) => s.(data := s.data[1..], replies := s.replies + [Nak(s.data[0].bit, xon)])
    case PeerBeats(xon) => s.(replies := s.replies + [Heartbeat(xon)])
  }

  // ---------------------------------------------------------------- what every step keeps

  /** The sequence bit of the PDU in the slot. */
  function Bit(s: System): nat {
    s.tx.seqno % 2
  }

  /** A PDU has been accepted and not yet acknowledged. */
  predicate Outstanding(s: System) {
    |s.accepted| == s.acked + 1
  }

  /** The peer has passed it up already. */
  predicate Arrived(s: System) {
    |s.delivered| == s.acked + 1
  }

  predicate All(data: seq<Frame>, bit: nat) {
    forall i :: 0 <= i < |data| ==> data[i].bit == bit
  }

  predicate Holds(data: seq<Frame>, bit: nat) {
    exists i :: 0 <= i < |data| && data[i].bit == bit
  }

  /** A reply about the frame with this bit that the transmitter heeds: the XOFF forms it does not. */
  predicate About(r: Reply, bit: int) {
    !r.Heartbeat? && r.xon && r.bit == bit
  }

  predicate Answers(replies: seq<Reply>, bit: nat) {
    exists i :: 0 <= i < |replies| && About(replies[i], bit)
  }

  /** Frames with the current bit are copies of the outstanding PDU, behind the leftovers of the one before. */
  ghost predicate DataOk(data: seq<Frame>, bit: nat, pdus: seq<Pdu>) {
    && (forall i :: 0 <= i < |data| ==> data[i].bit == bit || data[i].bit == 1 - bit)
    && (forall i :: 0 <= i < |data| && data[i].bit == bit ==> [data[i].pdu] == pdus)
    && (forall i, j :: 0 <= i < j < |data| && data[i].bit == bit ==> data[j].bit == bit)
  }

  /** Replies with the current bit come after all others, and an acknowledgement means arrival. */
  ghost predicate RepliesOk(replies: seq<Reply>, bit: nat, outstanding: bool, arrived: bool) {
    && (forall i :: 0 <= i < |replies| ==> replies[i].Heartbeat? || replies[i].bit == bit || replies[i].bit == 1 - bit)
    && (forall i :: 0 <= i < |replies| && About(replies[i], bit) ==> outstanding && (replies[i].Ack? ==> arrived))
    && (forall i, j :: 0 <= i < j < |replies| && About(replies[i], bit) ==> !About(replies[j], 1 - bit))
  }

  ghost predicate Slot(s: System) {
    && s.acked <= |s.accepted| <= s.acked + 1
    && s.tx.seqno < SEQ_MOD
    && Bit(s) == (s.acked + 1) % 2
    && s.tx.len <= |s.tx.buf|
    && (s.tx.flag <==> !Outstanding(s))
    && (s.tx.flag ==> s.tx.len == 0 && !s.tx.sending)
    && (Outstanding(s) ==> s.tx.buf[..s.tx.len] == s.accepted[s.acked])
  }

  ghost predicate Peer(s: System) {
    && s.acked <= |s.delivered| <= |s.accepted|
    && s.delivered == s.accepted[..|s.delivered|]
    && s.peerBit == (|s.delivered| + 1) % 2
  }

  ghost predicate Channels(s: System)
    requires s.acked <= |s.accepted|
  {
    && DataOk(s.data, Bit(s), s.accepted[s.acked..])
    && RepliesOk(s.replies, Bit(s), Outstanding(s), Arrived(s))
    && (Arrived(s) || Answers(s.replies, Bit(s)) ==> All(s.data, Bit(s)))
  }

  ghost predicate Inv(s: System) {
    Slot(s) && Peer(s) && Channels(s)
  }

  /** Up to the first give-up, and as long as no sender is overtaken by its own timer. */
  predicate Undisturbed(s: System) {
    !s.gaveUp && !s.overtaken
  }

  // ---- the channels, one change at a time

  lemma AppendKeepsDataOk(data: seq<Frame>, bit: nat, pdu: Pdu)
    requires DataOk(data, bit, [pdu])
    ensures DataOk(data + [Data(bit, pdu)], bit, [pdu])
    ensures All(data, bit) ==> All(data + [Data(bit, pdu)], bit)
  {
  }

  lemma RemoveKeepsDataOk(data: seq<Frame>, i: nat, bit: nat, pdus: seq<Pdu>)
    requires i < |data| && DataOk(data, bit, pdus)
    ensures DataOk(Remove(data, i), bit, pdus)
    ensures All(data, bit) ==> All(Remove(data, i), bit)
  {
    var d := Remove(data, i);
    assert forall j :: 0 <= j < |d| ==> d[j] == data[if j < i then j else j + 1];
  }

  lemma RemoveKeepsRepliesOk(replies: seq<Reply>, i: nat, bit: nat, outstanding: bool, arrived: bool)
    requires i < |replies| && RepliesOk(replies, bit, outstanding, arrived)
    ensures RepliesOk(Remove(replies, i), bit, outstanding, arrived)
    ensures Answers(Remove(replies, i), bit) ==> Answers(replies, bit)
  {
    var d := Remove(replies, i);
    assert forall j :: 0 <= j < |d| ==> d[j] == replies[if j < i then j else j + 1];
  }

  lemma ReplyKeepsRepliesOk(replies: seq<Reply>, r: Reply, bit: nat, outstanding: bool, arrived: bool)
    requires RepliesOk(replies, bit, outstanding, arrived)
    requires r.Heartbeat? || r.bit == bit || (r.bit == 1 - bit && !Answers(replies, bit))
    requires About(r, bit) ==> outstanding && (r.Ack? ==> arrived)
    ensures RepliesOk(replies + [r], bit, outstanding, arrived)
    ensures Answers(replies + [r], bit) ==> Answers(replies, bit) || About(r, bit)
  {
  }

  /** The outstanding PDU is acknowledged: all that was current is a leftover now. */
  lemma FlipKeepsChannels(data: seq<Frame>, replies: seq<Reply>, bit: nat, pdus: seq<Pdu>)
    requires bit < 2 && DataOk(data, bit, pdus) && All(data, bit) && |replies| > 0
    requires RepliesOk(replies, bit, true, true) && About(replies[0], bit)
    ensures DataOk(data, 1 - bit, []) && RepliesOk(replies[1..], 1 - bit, false, false)
    ensures !Answers(replies[1..], 1 - bit)
  {
    assert forall i :: 0 <= i < |replies| - 1 ==> replies[1..][i] == replies[i + 1];
  }

  lemma HeadIsRemoved<T>(q: seq<T>)
    requires q != []
    ensures q[1..] == Remove(q, 0)
  {
  }

  // ---- the steps

  lemma SendKeepsInv(s: System, pdu: Pdu)
    requires Inv(s) && Enabled(s, Send(pdu))
    ensures Inv(Apply(s, Send(pdu)))
  {
    var s' := Apply(s, Send(pdu));
    assert s.accepted[s.acked..] == [];
    assert s'.accepted[s'.acked] == pdu;
  }

  /** One more copy of the PDU in the slot goes out. */
  lemma AppendKeepsInv(s: System, tx: Tx)
    requires Inv(s) && Outstanding(s)
    requires tx.seqno == s.tx.seqno && tx.len == s.tx.len && tx.buf == s.tx.buf && tx.flag == s.tx.flag
    ensures Inv(s.(tx := tx, data := s.data + [Pending(s.tx)]))
  {
    assert s.accepted[s.acked..] == [s.accepted[s.acked]];
    AppendKeepsDataOk(s.data, Bit(s), s.accepted[s.acked]);
  }

  lemma TransmitKeepsInv(s: System)
    requires Inv(s) && Enabled(s, Transmit)
    ensures Inv(Apply(s, Transmit))
  {
    if s.tx.xon {
      AppendKeepsInv(s, s.tx.(sending := false));
    } else {
      assert s.data + [] == s.data;
    }
  }

  lemma NextBitFlips(n: nat)
    requires n < SEQ_MOD
    ensures ((n + 1) % SEQ_MOD) % 2 == 1 - n % 2
    ensures (n + 1) % SEQ_MOD != n
  {
  }

  /** The matching acknowledgement closes the PDU and frees the slot. */
  lemma AckKeepsInv(s: System)
    requires Inv(s) && !s.tx.sending
    requires s.replies != [] && s.replies[0].Ack? && s.replies[0].xon && s.replies[0].bit == Bit(s)
    ensures Inv(Apply(s, Receive))
  {
    NextBitFlips(s.tx.seqno);
    assert About(s.replies[0], Bit(s));
    assert s.delivered == s.accepted;
    FlipKeepsChannels(s.data, s.replies, Bit(s), s.accepted[s.acked..]);
    var s' := s.(tx := s.tx.(seqno := (s.tx.seqno + 1) % SEQ_MOD, len := 0, flag := true), replies := s.replies[1..],
                 acked := s.acked + 1);
    assert s'.accepted[s'.acked..] == [];
    assert s.data + [] == s.data;
    assert Apply(s, Receive) == s';
  }

  lemma DropReplyKeepsInv(s: System, i: nat)
    requires Inv(s) && i < |s.replies|
    ensures Inv(s.(replies := Remove(s.replies, i)))
  {
    RemoveKeepsRepliesOk(s.replies, i, Bit(s), Outstanding(s), Arrived(s));
  }

  lemma DropDataKeepsInv(s: System, i: nat)
    requires Inv(s) && i < |s.data|
    ensures Inv(s.(data := Remove(s.data, i)))
  {
    RemoveKeepsDataOk(s.data, i, Bit(s), s.accepted[s.acked..]);
  }

  lemma DropFrameKeepsInv(s: System)
    requires Inv(s) && s.data != []
    ensures Inv(s.(data := s.data[1..]))
    ensures All(s.data, Bit(s)) ==> All(s.data[1..], Bit(s))
  {
    HeadIsRemoved(s.data);
    DropDataKeepsInv(s, 0);
    RemoveKeepsDataOk(s.data, 0, Bit(s), s.accepted[s.acked..]);
  }

  /** What the peer adds to the replies. */
  lemma ReplyKeepsInv(s: System, r: Reply)
    requires Inv(s)
    requires r.Heartbeat? || r.bit == Bit(s) || (r.bit == 1 - Bit(s) && !Answers(s.replies, Bit(s)))
    requires About(r, Bit(s)) ==> Outstanding(s) && All(s.data, Bit(s)) && (r.Ack? ==> Arrived(s))
    ensures Inv(s.(replies := s.replies + [r]))
  {
    ReplyKeepsRepliesOk(s.replies, r, Bit(s), Outstanding(s), Arrived(s));
  }

  lemma XonKeepsInv(s: System, xon: bool)
    requires Inv(s)
    ensures Inv(s.(tx := s.tx.(xon := xon)))
  {
  }

  lemma ReceiveKeepsInv(s: System)
    requires Inv(s) && Enabled(s, Receive) && Undisturbed(Apply(s, Receive))
    ensures Inv(Apply(s, Receive))
  {
    var r := s.replies[0];
    NextBitFlips(s.tx.seqno);
    if r.Ack? && r.xon && r.bit == Bit(s) {
      AckKeepsInv(s);
      return;
    }
    var t := s.(replies := s.replies[1..]);
    HeadIsRemoved(s.replies);
    DropReplyKeepsInv(s, 0);
    assert s.data + [] == s.data;
    match r
    case Heartbeat(xon) =>
      XonKeepsInv(t, xon);
    case Ack(bit, xon) =>
    case Nak(bit, xon) =>
      if xon && bit == Bit(s) {
        assert About(s.replies[0], Bit(s));
        AppendKeepsInv(t, t.tx);
      }
  }

  lemma TimerKeepsInv(s: System)
    requires Inv(s) && Enabled(s, Timer) && Undisturbed(Apply(s, Timer))
    ensures Inv(Apply(s, Timer))
  {
    var s' := Apply(s, Timer);
    if s.tx.len != 0 && s.tx.xon {
      AppendKeepsInv(s, s'.tx);
    } else {
      assert s'.data == s.data;
    }
  }

  /** A frame with the current bit at the head: the whole channel is current. */
  lemma HeadIsCurrent(s: System)
    requires Inv(s) && s.data != [] && s.data[0].bit == Bit(s)
    ensures All(s.data, Bit(s)) && Outstanding(s) && s.data[0].pdu == s.accepted[s.acked]
  {
    assert [s.data[0].pdu] == s.accepted[s.acked..];
  }

  lemma PassUpKeepsInv(s: System)
    requires Inv(s) && Outstanding(s) && !Arrived(s) && All(s.data, Bit(s))
    ensures Inv(s.(delivered := s.delivered + [s.accepted[s.acked]], peerBit := (s.peerBit + 1) % 2))
  {
    var t := s.(delivered := s.delivered + [s.accepted[s.acked]], peerBit := (s.peerBit + 1) % 2);
    assert t.delivered == s.accepted;
    assert RepliesOk(t.replies, Bit(t), Outstanding(t), Arrived(t));
  }

  lemma LeftoverHasOldBit(s: System)
    requires Inv(s) && s.data != [] && s.data[0].bit != Bit(s)
    ensures s.data[0].bit == 1 - Bit(s) && !Arrived(s) && !Answers(s.replies, Bit(s)) && s.peerBit == Bit(s)
  {
  }

  lemma PeerRefusesKeepsInv(s: System, xon: bool)
    requires Inv(s) && s.data != []
    ensures Inv(Apply(s, PeerRefuses(xon)))
  {
    var f := s.data[0];
    var t := s.(data := s.data[1..]);
    DropFrameKeepsInv(s);
    if f.bit == Bit(s) { HeadIsCurrent(s); } else { LeftoverHasOldBit(s); }
    ReplyKeepsInv(t, Nak(f.bit, xon));
  }

  /** A copy of what the peer has already: acknowledged, not passed up. */
  lemma PeerTakesCopyKeepsInv(s: System, xon: bool)
    requires Inv(s) && s.data != [] && s.data[0].bit != s.peerBit
    ensures Inv(Apply(s, PeerTakes(xon)))
  {
    var f := s.data[0];
    var t := s.(data := s.data[1..]);
    DropFrameKeepsInv(s);
    if f.bit == Bit(s) {
      HeadIsCurrent(s);
      assert Arrived(s);
    } else {
      LeftoverHasOldBit(s);
    }
    ReplyKeepsInv(t, Ack(f.bit, xon));
  }

  lemma PeerTakesNewKeepsInv(s: System, xon: bool)
    requires Inv(s) && s.data != [] && s.data[0].bit == s.peerBit
    ensures Inv(Apply(s, PeerTakes(xon)))
  {
    if s.data[0].bit != Bit(s) { LeftoverHasOldBit(s); }
    HeadIsCurrent(s);
    assert !Arrived(s);
    DropFrameKeepsInv(s);
    NewKeepsInv(s, s.(data := s.data[1..]), xon);
  }

  lemma NewKeepsInv(s: System, t: System, xon: bool)
    requires Inv(t) && Outstanding(t) && !Arrived(t) && All(t.data, Bit(t))
    requires s.data != [] && s.data[0] == Data(Bit(t), t.accepted[t.acked])
    requires t == s.(data := s.data[1..]) && s.peerBit == Bit(t)
    ensures Inv(Apply(s, PeerTakes(xon)))
  {
    PassUpKeepsInv(t);
    var u := t.(delivered := t.delivered + [t.accepted[t.acked]], peerBit := (t.peerBit + 1) % 2);
    ReplyKeepsInv(u, Ack(Bit(t), xon));
    assert Apply(s, PeerTakes(xon)) == u.(replies := u.replies + [Ack(Bit(t), xon)]);
  }

  lemma StepKeepsInv(s: System, step: Step)
    requires Inv(s) && Enabled(s, step) && Undisturbed(Apply(s, step))
    ensures Inv(Apply(s, step))
  {
    match step
    case Send(pdu) => SendKeepsInv(s, pdu);
    case Transmit => TransmitKeepsInv(s);
    case Receive => ReceiveKeepsInv(s);
    case Timer => TimerKeepsInv(s);
    case LoseData(i) => DropDataKeepsInv(s, i);
    case LoseReply(i) => DropReplyKeepsInv(s, i);
    case PeerTakes(xon) =>
      if s.data[0].bit == s.peerBit { PeerTakesNewKeepsInv(s, xon); } else { PeerTakesCopyKeepsInv(s, xon); }
    case PeerRefuses(xon) => PeerRefusesKeepsInv(s, xon);
    case PeerBeats(xon) => ReplyKeepsInv(s, Heartbeat(xon));
  }

  // ---------------------------------------------------------------- whole runs

  ghost predicate Possible(s: System, run: seq<Step>)
    decreases |run|
  {
    run == [] || (Enabled(s, run[0]) && Possible(Apply(s, run[0]), run[1..]))
  }

  ghost function Final(s: System, run: seq<Step>): System
    requires Possible(s, run)
    decreases |run|
  {
    if run == [] then s else Final(Apply(s, run[0]), run[1..])
  }

  lemma {:induction false} DisturbanceStays(s: System, run: seq<Step>)
    requires Possible(s, run) && Undisturbed(Final(s, run))
    ensures Undisturbed(s)
    decreases |run|
  {
    if run != [] { DisturbanceStays(Apply(s, run[0]), run[1..]); }
  }

  lemma {:induction false} RunKeepsInv(s: System, run: seq<Step>)
    requires Inv(s) && Possible(s, run) && Undisturbed(Final(s, run))
    ensures Inv(Final(s, run))
    decreases |run|
  {
    if run != [] {
      DisturbanceStays(Apply(s, run[0]), run[1..]);
      StepKeepsInv(s, run[0]);
      RunKeepsInv(Apply(s, run[0]), run[1..]);
    }
  }

  lemma InitialInv()
    ensures Inv(Initial())
  {
  }

  /** However frames are lost, delayed, repeated by the timer and refused: what the peer has passed
      up is what was accepted, in order and each PDU once, short of at most the last one; and when
      the token is back nothing is missing. */
  lemma ExactlyOnceInOrder(run: seq<Step>)
    requires Possible(Initial(), run) && Undisturbed(Final(Initial(), run))
    ensures var s := Final(Initial(), run);
      && s.delivered <= s.accepted && |s.accepted| <= |s.delivered| + 1
      && s.acked <= |s.delivered|
      && (s.tx.flag ==> s.delivered == s.accepted && s.acked == |s.accepted|)
  {
    InitialInv();
    RunKeepsInv(Initial(), run);
  }

  lemma StepSendsPending(s: System, step: Step)
    requires Inv(s) && Enabled(s, step) && (step.Transmit? || step.Receive? || step.Timer?)
    ensures var data := Apply(s, step).data;
      data == s.data || (Outstanding(s) && data == s.data + [Data((s.acked + 1) % 2, s.accepted[s.acked])])
  {
    assert s.data + [] == s.data;
  }

  /** Whatever a step transmits is the n-th accepted PDU under the n-th bit, n the number of PDUs
      acknowledged so far: first transmissions and retransmissions are the same frame. */
  lemma RetransmissionsAgree(run: seq<Step>, step: Step)
    requires Possible(Initial(), run) && Undisturbed(Final(Initial(), run))
    requires Enabled(Final(Initial(), run), step) && (step.Transmit? || step.Receive? || step.Timer?)
    ensures var s := Final(Initial(), run);
      var data := Apply(s, step).data;
      data == s.data
      || (s.acked < |s.accepted| && data == s.data + [Data((s.acked + 1) % 2, s.accepted[s.acked])])
  {
    hide Inv, Apply;
    InitialInv();
    RunKeepsInv(Initial(), run);
    StepSendsPending(Final(Initial(), run), step);
  }

  // ---------------------------------------------------------------- the attempts that are made

  function Timers(run: seq<Step>): nat {
    if run == [] then 0 else (if run[0] == Timer then 1 else 0) + Timers(run[1..])
  }

  /** No reply of the run acknowledges the PDU in the slot. */
  ghost predicate Unanswered(s: System, run: seq<Step>)
    requires Possible(s, run)
    decreases |run|
  {
    run == [] || (Apply(s, run[0]).tx.seqno == s.tx.seqno && Unanswered(Apply(s, run[0]), run[1..]))
  }

  /** The PDU is in the slot, and the timer has run out n times since it was put there. */
  ghost predicate InSlot(t: Tx, pdu: Pdu, n: nat) {
    t.len == |pdu| <= |t.buf| && t.buf[..t.len] == pdu && t.rxmtCnt == n && !t.flag && t.seqno < SEQ_MOD
  }

  /** The timer sends a copy the first two times, and the sender one at once, if the peer's reception is on; the
      third time the PDU is given up. Nothing else but an acknowledgement takes it out of the slot. */
  lemma SlotStep(s: System, pdu: Pdu, n: nat, step: Step)
    requires InSlot(s.tx, pdu, n) && pdu != [] && n < 3 && Enabled(s, step)
    requires Apply(s, step).tx.seqno == s.tx.seqno
    ensures var t, copy := Apply(s, step), if s.tx.xon then [Data(s.tx.seqno % 2, pdu)] else [];
      match step
      case Timer =>
        if n < 2 then InSlot(t.tx, pdu, n + 1) && t.data == s.data + copy
        else t.tx.len == 0 && t.tx.flag && t.gaveUp && t.data == s.data
      case Transmit => InSlot(t.tx, pdu, n) && t.data == s.data + copy
      case _ => InSlot(t.tx, pdu, n)
  {
    assert s.data + [] == s.data;
    NextBitFlips(s.tx.seqno);
  }

  lemma {:induction false} SlotRun(s: System, pdu: Pdu, n: nat, run: seq<Step>)
    requires InSlot(s.tx, pdu, n) && pdu != [] && n + Timers(run) < 3 && Possible(s, run) && Unanswered(s, run)
    ensures InSlot(Final(s, run).tx, pdu, n + Timers(run))
    decreases |run|
  {
    hide Apply, Enabled, InSlot;
    if run != [] {
      SlotStep(s, pdu, n, run[0]);
      SlotRun(Apply(s, run[0]), pdu, if run[0] == Timer then n + 1 else n, run[1..]);
    }
  }

  /** Each PDU that is taken is given all its attempts, however many the one before it has used up: over any run
      without its acknowledgement it is in the slot until the timer has run out three times, and then given up. */
  lemma AllAttemptsMade(s: System, pdu: Pdu, run: seq<Step>)
    requires s.tx.seqno < SEQ_MOD && s.tx.len == 0 && pdu != [] && Enabled(s, Send(pdu))
    requires Possible(Apply(s, Send(pdu)), run) && Unanswered(Apply(s, Send(pdu)), run) && Timers(run) < 3
    ensures var t := Final(Apply(s, Send(pdu)), run);
      && InSlot(t.tx, pdu, Timers(run))
      && (Timers(run) == 2 ==> Enabled(t, Timer) && Apply(t, Timer).tx.len == 0 && Apply(t, Timer).tx.flag)
  {
    hide Final, Unanswered;
    var t := Apply(s, Send(pdu));
    assert t.tx.buf[..|pdu|] == pdu;
    SlotRun(t, pdu, 0, run);
    if Timers(run) == 2 { SlotStep(Final(t, run), pdu, 2, Timer); }
  }

  // ---------------------------------------------------------------- beyond the first give-up

  /** Give up, fill the slot again, transmit. */
  lemma GiveUpThenSend(s: System, pdu: Pdu) returns (t: System)
    requires GivesUp(s.tx) && !s.tx.sending && s.tx.xon && s.data == []
    requires |pdu| <= |s.tx.buf| && s.tx.len <= |s.tx.buf|
    ensures Enabled(s, Timer) && Enabled(Apply(s, Timer), Send(pdu))
    ensures Enabled(Apply(Apply(s, Timer), Send(pdu)), Transmit)
    ensures t == Apply(Apply(Apply(s, Timer), Send(pdu)), Transmit)
    ensures t == s.(tx := t.tx, data := [Data(Bit(s), pdu)], accepted := s.accepted + [pdu], gaveUp := true)
    ensures t.tx.seqno == s.tx.seqno && !t.tx.sending && t.tx.len <= |t.tx.buf|
  {
    var s1 := Apply(s, Timer);
    var s2 := Apply(s1, Send(pdu));
    assert s2.tx.buf[..s2.tx.len] == pdu;
    t := Apply(s2, Transmit);
    assert s1.data == [] && t.data == [Data(Bit(s), pdu)];
  }

  /** The peer passes a frame up if it has the expected bit, and the slot is closed either way. */
  lemma TakenAndAcknowledged(s: System, pdu: Pdu) returns (t: System)
    requires s.data == [Data(Bit(s), pdu)] && s.replies == [] && s.tx.seqno < SEQ_MOD && s.tx.len <= |s.tx.buf|
    ensures Enabled(s, PeerTakes(true)) && Enabled(Apply(s, PeerTakes(true)), Receive)
    ensures t == Apply(Apply(s, PeerTakes(true)), Receive)
    ensures t.accepted == s.accepted && t.tx.flag && t.tx.len == 0 && t.data == []
    ensures t.delivered == if Bit(s) == s.peerBit then s.delivered + [pdu] else s.delivered
    ensures t.tx.seqno % 2 == 1 - Bit(s) && t.tx.sending == s.tx.sending && t.tx.xon == s.tx.xon && t.tx.len == 0
    ensures t.peerBit == if Bit(s) == s.peerBit then (s.peerBit + 1) % 2 else s.peerBit
  {
    var s1 := Apply(s, PeerTakes(true));
    assert s1.replies == [Ack(Bit(s), true)] && s1.data == [];
    NextBitFlips(s.tx.seqno);
    t := Apply(s1, Receive);
  }

  /** Giving up frees the slot and keeps the sequence bit. With no copy of the abandoned PDU left in
      the channel, the PDU sent next is passed up exactly when the abandoned one was not; it is
      acknowledged, and its slot closed, in either case. */
  lemma AfterGiveUp(s: System, pdu: Pdu)
    requires Inv(s) && Outstanding(s) && GivesUp(s.tx) && !s.tx.sending && s.tx.xon && s.data == [] && s.replies == []
    requires |pdu| <= |s.tx.buf|
    ensures var run := [Timer, Send(pdu), Transmit, PeerTakes(true), Receive];
      && Possible(s, run)
      && var t := Final(s, run);
         && t.accepted == s.accepted + [pdu]
         && (t.delivered == s.delivered + [pdu] <==> !Arrived(s))
         && (t.delivered == s.delivered <==> Arrived(s))
         && t.tx.flag && t.tx.len == 0
  {
    assert s.peerBit == Bit(s) <==> !Arrived(s);
    var u := GiveUpThenSend(s, pdu);
    var t := TakenAndAcknowledged(u, pdu);
    RunOfFive(s, Timer, Send(pdu), Transmit, PeerTakes(true), Receive);
  }

  lemma RunCons(s: System, step: Step, run: seq<Step>)
    requires Enabled(s, step) && Possible(Apply(s, step), run)
    ensures Possible(s, [step] + run) && Final(s, [step] + run) == Final(Apply(s, step), run)
  {
    assert ([step] + run)[1..] == run;
  }

  lemma RunOfNone(s: System)
    ensures Possible(s, []) && Final(s, []) == s
  {
  }

  lemma RunOfFive(s: System, a: Step, b: Step, c: Step, d: Step, e: Step)
    requires Enabled(s, a) && Enabled(Apply(s, a), b) && Enabled(Apply(Apply(s, a), b), c)
    requires Enabled(Apply(Apply(Apply(s, a), b), c), d)
    requires Enabled(Apply(Apply(Apply(Apply(s, a), b), c), d), e)
    ensures Possible(s, [a, b, c, d, e])
    ensures Final(s, [a, b, c, d, e]) == Apply(Apply(Apply(Apply(Apply(s, a), b), c), d), e)
  {
    hide Apply, Enabled, Possible, Final;
    var s1 := Apply(s, a);
    var s2 := Apply(s1, b);
    var s3 := Apply(s2, c);
    var s4 := Apply(s3, d);
    RunOfNone(Apply(s4, e));
    RunCons(s4, e, []);
    RunCons(s3, d, [e] + []);
    RunCons(s2, c, [d] + ([e] + []));
    RunCons(s1, b, [c] + ([d] + ([e] + [])));
    RunCons(s, a, [b] + ([c] + ([d] + ([e] + []))));
    assert [a] + ([b] + ([c] + ([d] + ([e] + [])))) == [a, b, c, d, e];
  }

  lemma {:induction false} RunAppend(s: System, a: seq<Step>, b: seq<Step>)
    requires Possible(s, a) && Possible(Final(s, a), b)
    ensures Possible(s, a + b) && Final(s, a + b) == Final(Final(s, a), b)
    decreases |a|
  {
    hide Enabled, Apply;
    if a == [] {
      assert [] + b == b;
    } else {
      RunAppend(Apply(s, a[0]), a[1..], b);
      assert (a + b)[0] == a[0] && (a + b)[1..] == a[1..] + b;
    }
  }

  lemma FirstDelivered(a: Pdu) returns (s: System)
    requires 0 < |a| <= MTU
    ensures var run := [PeerBeats(true), Receive, Send(a), Transmit, PeerTakes(true)];
      Possible(Initial(), run) && s == Final(Initial(), run)
    ensures s.accepted == s.delivered == [a] && s.acked == 0 && s.tx.len == |a| && s.tx.xon && s.tx.rxmtCnt == 0
    ensures s.data == [] && |s.replies| == 1 && !s.tx.sending && Undisturbed(s) && |s.tx.buf| == MTU
  {
    var s0 := Initial();
    var s1 := Apply(s0, PeerBeats(true));
    assert s1.replies == [Heartbeat(true)];
    var s2 := Apply(s1, Receive);
    assert s2.data == [] && s2.replies == [];
    var s3 := Apply(s2, Send(a));
    assert s3.tx.buf[..s3.tx.len] == a;
    var s4 := Apply(s3, Transmit);
    assert s4.data == [Data(1, a)];
    s := Apply(s4, PeerTakes(true));
    RunOfFive(s0, PeerBeats(true), Receive, Send(a), Transmit, PeerTakes(true));
  }

  lemma AllRetriesLost(s: System) returns (t: System)
    requires s.data == [] && |s.replies| == 1 && 0 < s.tx.len <= |s.tx.buf| && s.tx.xon && s.tx.rxmtCnt == 0
    ensures var run := [LoseReply(0), Timer, LoseData(0), Timer, LoseData(0)];
      Possible(s, run) && t == Final(s, run)
    ensures t == s.(tx := s.tx.(rxmtCnt := 2), replies := [])
  {
    var s1 := Apply(s, LoseReply(0));
    var s2 := Apply(s1, Timer);
    assert s2.data == [Pending(s.tx)];
    var s3 := Apply(s2, LoseData(0));
    var s4 := Apply(s3, Timer);
    assert s4.data == [Pending(s3.tx)];
    t := Apply(s4, LoseData(0));
    RunOfFive(s, LoseReply(0), Timer, LoseData(0), Timer, LoseData(0));
  }

  lemma AboutToGiveUp(a: Pdu) returns (run: seq<Step>, t: System)
    requires 0 < |a| <= MTU
    ensures Possible(Initial(), run) && t == Final(Initial(), run)
    ensures Inv(t) && Outstanding(t) && Arrived(t) && GivesUp(t.tx) && !t.tx.sending && t.tx.xon
    ensures t.data == [] && t.replies == [] && t.accepted == t.delivered == [a] && |t.tx.buf| == MTU
  {
    var s := FirstDelivered(a);
    t := AllRetriesLost(s);
    var run1 := [PeerBeats(true), Receive, Send(a), Transmit, PeerTakes(true)];
    var run2 := [LoseReply(0), Timer, LoseData(0), Timer, LoseData(0)];
    RunAppend(Initial(), run1, run2);
    run := run1 + run2;
    InitialInv();
    RunKeepsInv(Initial(), run);
  }

  /** Beyond the first give-up exactly-once fails: b is accepted and acknowledged, and never passed up. */
  lemma GiveUpLosesNextPdu(a: Pdu, b: Pdu) returns (run: seq<Step>)
    requires 0 < |a| <= MTU && |b| <= MTU
    ensures Possible(Initial(), run)
    ensures var s := Final(Initial(), run);
      s.accepted == [a, b] && s.delivered == [a] && s.tx.flag && s.tx.len == 0
  {
    var run0, t := AboutToGiveUp(a);
    AfterGiveUp(t, b);
    RunAppend(Initial(), run0, [Timer, Send(b), Transmit, PeerTakes(true), Receive]);
    run := run0 + [Timer, Send(b), Transmit, PeerTakes(true), Receive];
  }

  lemma TimerTransmits(s: System) returns (t: System)
    requires Slot(s) && Outstanding(s) && s.tx.len != 0 && s.tx.xon && !GivesUp(s.tx) && s.data == []
    ensures Enabled(s, Timer) && t == Apply(s, Timer)
    ensures t == s.(tx := s.tx.(rxmtCnt := s.tx.rxmtCnt + 1), data := [Data(Bit(s), s.accepted[s.acked])])
  {
    t := Apply(s, Timer);
    assert t.data == [Data(Bit(s), s.accepted[s.acked])];
  }

  lemma EmptyPduTaken(s: System)
    requires s.tx.sending && s.tx.len == 0 && s.tx.xon && s.data == [] && s.peerBit == Bit(s)
    ensures Enabled(s, Transmit) && Enabled(Apply(s, Transmit), PeerTakes(true))
    ensures var t := Apply(Apply(s, Transmit), PeerTakes(true));
      && t.accepted == s.accepted && t.delivered == s.delivered + [[]]
      && t.gaveUp == s.gaveUp && t.overtaken == s.overtaken
  {
    assert Apply(s, Transmit).data == [Data(Bit(s), [])];
  }

  // ---------------------------------------------------------------- when giving up does no harm

  /** The accounts of faults opened anew; the link itself goes on as it is. */
  function Onward(t: System): System {
    t.(gaveUp := false, overtaken := false)
  }

  /** What has been passed up is `due`, in order, short of at most the last PDU, and of nothing when the
      token is back. */
  ghost predicate PassedUp(f: System, due: seq<Pdu>) {
    f.delivered <= due && |due| <= |f.delivered| + 1 && (f.tx.flag ==> f.delivered == due)
  }

  /** Later, in state f: the PDUs accepted since the give-up in state s have been served as they should,
      whatever has become of the abandoned one. */
  ghost predicate ServedSince(s: System, f: System)
    requires s.acked <= |s.accepted|
  {
    |s.accepted| <= |f.accepted| &&
    var since := f.accepted[|s.accepted|..];
    PassedUp(f, s.accepted[..s.acked] + since) || PassedUp(f, s.accepted + since)
  }

  /** So it is on every schedule up to the next give-up or overtaken sender. */
  ghost predicate AlwaysServed(s: System, t: System)
    requires s.acked <= |s.accepted|
  {
    forall run :: Possible(t, run) && Undisturbed(Final(t, run)) ==> ServedSince(s, Final(t, run))
  }

  /** The abandoned PDU has not arrived, no copy of it is on its way, and no request to repeat it. */
  predicate Clear(s: System) {
    !Arrived(s) && !Holds(s.data, Bit(s)) && !Answers(s.replies, Bit(s))
  }

  /** The state with the abandoned PDU struck off. */
  function Struck(t: System): System {
    t.(accepted := t.delivered)
  }

  lemma ClearGiveUpKeepsInv(s: System)
    requires Inv(s) && GivesUp(s.tx) && !s.tx.sending && Clear(s)
    ensures Inv(Struck(Onward(Apply(s, Timer))))
  {
    var g := Struck(Onward(Apply(s, Timer)));
    assert s.data + [] == s.data;
    assert g.accepted[g.acked..] == [];
  }

  lemma StruckStepAlike(t: System, g: System, step: Step) returns (more: seq<Pdu>)
    requires g == t.(accepted := g.accepted) && Enabled(t, step)
    ensures Enabled(g, step)
    ensures Apply(t, step).accepted == t.accepted + more
    ensures Apply(g, step) == Apply(t, step).(accepted := g.accepted + more)
  {
    more := if step.Send? && t.tx.len == 0 then [step.pdu] else [];
    assert t.accepted + [] == t.accepted && g.accepted + [] == g.accepted;
  }

  /** The accounts do not steer the link: a run is possible with the PDU struck off if it is with it, and
      all but the accounts comes out the same. */
  lemma {:induction false} StruckRunsAlike(t: System, g: System, run: seq<Step>) returns (since: seq<Pdu>)
    requires g == t.(accepted := g.accepted) && Possible(t, run)
    ensures Possible(g, run)
    ensures Final(t, run).accepted == t.accepted + since
    ensures Final(g, run) == Final(t, run).(accepted := g.accepted + since)
    decreases |run|
  {
    hide Enabled, Apply;
    since := [];
    assert t.accepted + [] == t.accepted && g.accepted + [] == g.accepted;
    if run != [] {
      var more := StruckStepAlike(t, g, run[0]);
      var rest := StruckRunsAlike(Apply(t, run[0]), Apply(g, run[0]), run[1..]);
      since := more + rest;
      assert t.accepted + more + rest == t.accepted + since && g.accepted + more + rest == g.accepted + since;
    }
  }

  lemma InvPassesUp(h: System)
    requires Inv(h)
    ensures PassedUp(h, h.accepted)
  {
  }

  lemma ClearGiveUpServes(s: System, run: seq<Step>)
    requires Inv(s) && GivesUp(s.tx) && !s.tx.sending && Clear(s)
    requires Possible(Onward(Apply(s, Timer)), run) && Undisturbed(Final(Onward(Apply(s, Timer)), run))
    ensures ServedSince(s, Final(Onward(Apply(s, Timer)), run))
  {
    var t := Onward(Apply(s, Timer));
    ClearGiveUpKeepsInv(s);
    var since := StruckRunsAlike(t, Struck(t), run);
    RunKeepsInv(Struck(t), run);
    InvPassesUp(Final(Struck(t), run));
    var f := Final(t, run);
    assert s.delivered == s.accepted[..s.acked] && t.accepted == s.accepted;
    assert f.accepted[|s.accepted|..] == since;
    assert PassedUp(f, s.delivered + since);
  }

  // ---- the adversary's schedules

  lemma {:induction false} LoseReplies(u: System) returns (run: seq<Step>)
    ensures Possible(u, run) && Final(u, run) == u.(replies := [])
    ensures Transmit !in run
    decreases |u.replies|
  {
    run := [];
    if u.replies != [] {
      HeadIsRemoved(u.replies);
      var rest := LoseReplies(Apply(u, LoseReply(0)));
      RunCons(u, LoseReply(0), rest);
      run := [LoseReply(0)] + rest;
    }
  }

  lemma {:induction false} LoseAllBut(u: System, i: nat) returns (run: seq<Step>)
    requires i < |u.data|
    ensures Possible(u, run) && Final(u, run) == u.(data := [u.data[i]])
    ensures Transmit !in run
    decreases |u.data|
  {
    run := [];
    if |u.data| == 1 {
      assert u.data == [u.data[i]];
    } else {
      var k := if i == 0 then 1 else 0;
      var v := Apply(u, LoseData(k));
      assert v.data[if i == 0 then 0 else i - 1] == u.data[i];
      var rest := LoseAllBut(v, if i == 0 then 0 else i - 1);
      RunCons(u, LoseData(k), rest);
      run := [LoseData(k)] + rest;
    }
  }

  lemma {:induction false} LoseFrames(u: System) returns (run: seq<Step>)
    ensures Possible(u, run) && Final(u, run) == u.(data := [])
    ensures Transmit !in run
    decreases |u.data|
  {
    run := [];
    if u.data != [] {
      HeadIsRemoved(u.data);
      var rest := LoseFrames(Apply(u, LoseData(0)));
      RunCons(u, LoseData(0), rest);
      run := [LoseData(0)] + rest;
    }
  }

  lemma RunOfTwo(s: System, a: Step, b: Step)
    requires Enabled(s, a) && Enabled(Apply(s, a), b)
    ensures Possible(s, [a, b]) && Final(s, [a, b]) == Apply(Apply(s, a), b)
  {
    RunCons(Apply(s, a), b, []);
    RunCons(s, a, [b] + []);
    assert [a] + ([b] + []) == [a, b];
  }

  /** Replies lost, and a heartbeat turns the transmission on. */
  lemma QuietReplies(u: System) returns (run: seq<Step>)
    requires u.tx.len <= |u.tx.buf|
    ensures Possible(u, run) && Final(u, run) == u.(replies := [], tx := u.tx.(xon := true))
    ensures Transmit !in run
  {
    var a := LoseReplies(u);
    var v := u.(replies := []);
    assert Apply(v, PeerBeats(true)).replies == [Heartbeat(true)];
    assert v.data + [] == v.data;
    RunOfTwo(v, PeerBeats(true), Receive);
    RunAppend(u, a, [PeerBeats(true), Receive]);
    run := a + [PeerBeats(true), Receive];
  }

  lemma QuietLink(u: System) returns (run: seq<Step>)
    requires u.tx.len <= |u.tx.buf|
    ensures Possible(u, run) && Final(u, run) == u.(data := [], replies := [], tx := u.tx.(xon := true))
  {
    var a := QuietReplies(u);
    var b := LoseFrames(Final(u, a));
    RunAppend(u, a, b);
    run := a + b;
  }

  /** What is sent next, behind at most one copy of what was sent before: the slot is closed by the
      acknowledgement of whatever comes first. */
  lemma NextPduClosed(u: System, pdu: Pdu) returns (run: seq<Step>)
    requires u.tx.flag && u.tx.len == 0 && !u.tx.sending && u.tx.xon && |pdu| <= |u.tx.buf| && u.tx.seqno < SEQ_MOD
    requires u.replies == [] && (u.data == [] || (|u.data| == 1 && u.data[0].bit == Bit(u)))
    ensures Possible(u, run)
    ensures var f := Final(u, run);
      && f.accepted == u.accepted + [pdu] && f.tx.flag && (Undisturbed(u) ==> Undisturbed(f))
      && f.delivered ==
           if Bit(u) != u.peerBit then u.delivered else u.delivered + [(u.data + [Data(Bit(u), pdu)])[0].pdu]
  {
    var u1 := Apply(u, Send(pdu));
    assert u1.tx.buf[..u1.tx.len] == pdu;
    var u2 := Apply(u1, Transmit);
    assert u2.data == u.data + [Data(Bit(u), pdu)];
    RunOfTwo(u, Send(pdu), Transmit);
    var u3 := Apply(u2, PeerTakes(true));
    assert u3.replies == [Ack(Bit(u), true)];
    NextBitFlips(u.tx.seqno);
    RunOfTwo(u2, PeerTakes(true), Receive);
    RunAppend(u, [Send(pdu), Transmit], [PeerTakes(true), Receive]);
    run := [Send(pdu), Transmit] + [PeerTakes(true), Receive];
  }

  /** The state that giving up leads to. */
  lemma GivenUp(s: System) returns (t: System)
    requires Inv(s) && GivesUp(s.tx)
    ensures t == Onward(Apply(s, Timer)) && t.data == s.data && t.replies == s.replies && t.delivered == s.delivered
    ensures t.tx == s.tx.(rxmtCnt := s.tx.rxmtCnt + 1, len := 0, flag := true)
    ensures t.accepted == s.accepted == s.accepted[..s.acked] + [s.accepted[s.acked]] && s.accepted[s.acked] != []
    ensures s.delivered == if Arrived(s) then s.accepted else s.accepted[..s.acked]
    ensures Bit(s) == s.peerBit <==> !Arrived(s)
    ensures |s.tx.buf| >= 1 && Undisturbed(t) && s.tx.seqno < SEQ_MOD && |s.accepted| == s.acked + 1
  {
    t := Onward(Apply(s, Timer));
    assert s.data + [] == s.data;
  }

  lemma NotServed(s: System, f: System, since: seq<Pdu>)
    requires Slot(s) && |s.accepted| == s.acked + 1 && f.accepted == s.accepted + since && f.tx.flag
    requires f.delivered != s.accepted[..s.acked] + since && f.delivered != s.accepted + since
    ensures !ServedSince(s, f)
  {
    assert f.accepted[|s.accepted|..] == since;
  }

  lemma NotEven(s: System, f: System)
    requires Slot(s) && |s.accepted| == s.acked + 1 && s.accepted[s.acked] != [] && f.accepted == s.accepted
    requires f.delivered == s.accepted[..s.acked] + [[]]
    ensures !ServedSince(s, f)
  {
    assert f.accepted[|s.accepted|..] == [];
    assert s.accepted[..s.acked] + [] == s.accepted[..s.acked] && s.accepted + [] == s.accepted;
    assert f.delivered[s.acked] == [];
  }

  /** The abandoned PDU had arrived: the next one is taken for a copy of it. */
  lemma ArrivedLosesNext(s: System, u: System) returns (run: seq<Step>)
    requires Inv(s) && GivesUp(s.tx) && Arrived(s)
    requires u.tx == s.tx.(rxmtCnt := u.tx.rxmtCnt, len := 0, flag := true, xon := true, sending := false)
    requires u.data == [] && u.replies == [] && u.accepted == s.accepted && u.delivered == s.delivered
    requires u.peerBit == s.peerBit && Undisturbed(u)
    ensures Possible(u, run) && Undisturbed(Final(u, run)) && !ServedSince(s, Final(u, run))
  {
    var t := GivenUp(s);
    run := NextPduClosed(u, []);
    var f := Final(u, run);
    assert f.delivered == s.accepted[..s.acked] + [s.accepted[s.acked]];
    assert |f.delivered| == s.acked + 1 && f.delivered[s.acked] != [];
    assert (s.accepted[..s.acked] + [[]])[s.acked] == [];
    NotServed(s, f, [[]]);
  }

  /** A copy of the abandoned PDU is on its way: its acknowledgement closes the slot of the next one. */
  lemma CopyClosesNext(s: System) returns (run: seq<Step>)
    requires Inv(s) && GivesUp(s.tx) && !s.tx.sending && !Arrived(s) && Holds(s.data, Bit(s))
    ensures var t := Onward(Apply(s, Timer));
      Possible(t, run) && Undisturbed(Final(t, run)) && !ServedSince(s, Final(t, run))
  {
    var t := GivenUp(s);
    var i :| 0 <= i < |s.data| && s.data[i].bit == Bit(s);
    assert [s.data[i].pdu] == s.accepted[s.acked..];
    var a := LoseAllBut(t, i);
    var b := QuietReplies(Final(t, a));
    RunAppend(t, a, b);
    var u := Final(t, a + b);
    var c := NextPduClosed(u, []);
    RunAppend(t, a + b, c);
    run := a + b + c;
    var f := Final(t, run);
    assert f.delivered[s.acked] == s.accepted[s.acked];
    assert (s.accepted[..s.acked] + [[]])[s.acked] == [];
    NotServed(s, f, [[]]);
  }

  /** Nothing pending, and still the peer is sent a frame: it passes up an empty PDU. */
  lemma EmptyFrameTaken(s: System, u: System)
    requires Inv(s) && GivesUp(s.tx) && !Arrived(s) && u.data == [Data(Bit(s), [])]
    requires u.accepted == s.accepted && u.delivered == s.delivered && u.peerBit == s.peerBit && Undisturbed(u)
    ensures Enabled(u, PeerTakes(true))
    ensures Undisturbed(Apply(u, PeerTakes(true))) && !ServedSince(s, Apply(u, PeerTakes(true)))
  {
    var t := GivenUp(s);
    NotEven(s, Apply(u, PeerTakes(true)));
  }

  /** A request to repeat the abandoned PDU is on its way: it is answered with an empty one. */
  lemma RequestAnsweredEmpty(s: System) returns (run: seq<Step>)
    requires Inv(s) && GivesUp(s.tx) && !s.tx.sending && !Arrived(s) && Answers(s.replies, Bit(s))
    ensures var t := Onward(Apply(s, Timer));
      Possible(t, run) && Undisturbed(Final(t, run)) && !ServedSince(s, Final(t, run))
  {
    var t := GivenUp(s);
    var j :| 0 <= j < |s.replies| && About(s.replies[j], Bit(s));
    var a := LoseFrames(t);
    var t1 := Final(t, a);
    var b := LoseAllRepliesBut(t1, j);
    RunAppend(t, a, b);
    var t2 := Final(t, a + b);
    var u := Apply(t2, Receive);
    assert u.data == [Data(Bit(s), [])];
    EmptyFrameTaken(s, u);
    RunOfTwo(t2, Receive, PeerTakes(true));
    RunAppend(t, a + b, [Receive, PeerTakes(true)]);
    run := a + b + [Receive, PeerTakes(true)];
  }

  lemma {:induction false} LoseAllRepliesBut(u: System, i: nat) returns (run: seq<Step>)
    requires i < |u.replies|
    ensures Possible(u, run) && Final(u, run) == u.(replies := [u.replies[i]])
    ensures Transmit !in run
    decreases |u.replies|
  {
    run := [];
    if |u.replies| == 1 {
      assert u.replies == [u.replies[i]];
    } else {
      var k := if i == 0 then 1 else 0;
      var v := Apply(u, LoseReply(k));
      assert v.replies[if i == 0 then 0 else i - 1] == u.replies[i];
      var rest := LoseAllRepliesBut(v, if i == 0 then 0 else i - 1);
      RunCons(u, LoseReply(k), rest);
      run := [LoseReply(k)] + rest;
    }
  }

  /** A sender that has not transmitted yet when the link gives up sends an empty PDU. */
  lemma SendingGivesUp(s: System) returns (run: seq<Step>)
    requires Inv(s) && GivesUp(s.tx) && s.tx.sending
    ensures var t := Onward(Apply(s, Timer));
      Possible(t, run) && Undisturbed(Final(t, run)) && !ServedSince(s, Final(t, run))
  {
    var t := GivenUp(s);
    var a := QuietLink(t);
    var t1 := Final(t, a);
    var u := Apply(t1, Transmit);
    assert u.data == [Data(Bit(s), [])];
    if Arrived(s) {
      RunOfTwo(t1, Transmit, LoseData(0));
      RunAppend(t, a, [Transmit, LoseData(0)]);
      var v := Apply(u, LoseData(0));
      var b := ArrivedLosesNext(s, v);
      RunAppend(t, a + [Transmit, LoseData(0)], b);
      run := a + [Transmit, LoseData(0)] + b;
    } else {
      EmptyFrameTaken(s, u);
      RunOfTwo(t1, Transmit, PeerTakes(true));
      RunAppend(t, a, [Transmit, PeerTakes(true)]);
      run := a + [Transmit, PeerTakes(true)];
    }
  }

  lemma ArrivedGivesUp(s: System) returns (run: seq<Step>)
    requires Inv(s) && GivesUp(s.tx) && !s.tx.sending && Arrived(s)
    ensures var t := Onward(Apply(s, Timer));
      Possible(t, run) && Undisturbed(Final(t, run)) && !ServedSince(s, Final(t, run))
  {
    var t := GivenUp(s);
    var a := QuietLink(t);
    var b := ArrivedLosesNext(s, Final(t, a));
    RunAppend(t, a, b);
    run := a + b;
  }

  /** Giving up is harmless, whatever the channels hold and on every schedule up to the next give-up or
      overtaken sender, exactly if the sender has transmitted, the abandoned PDU has not arrived, and
      neither a copy of it nor a request to repeat it is on its way. */
  lemma GiveUpIsHarmless(s: System)
    requires Inv(s) && GivesUp(s.tx)
    ensures AlwaysServed(s, Onward(Apply(s, Timer))) <==> !s.tx.sending && Clear(s)
  {
    hide Inv, Slot, Peer, Channels, ServedSince, Apply;
    InvBounds(s);
    var t := Onward(Apply(s, Timer));
    if !s.tx.sending && Clear(s) {
      forall run | Possible(t, run) && Undisturbed(Final(t, run))
        ensures ServedSince(s, Final(t, run))
      {
        ClearGiveUpServes(s, run);
      }
    } else if s.tx.sending {
      var run := SendingGivesUp(s);
      assert !AlwaysServed(s, t);
    } else if Arrived(s) {
      var run := ArrivedGivesUp(s);
      assert !AlwaysServed(s, t);
    } else if Holds(s.data, Bit(s)) {
      var run := CopyClosesNext(s);
      assert !AlwaysServed(s, t);
    } else {
      var run := RequestAnsweredEmpty(s);
      assert !AlwaysServed(s, t);
    }
  }

  lemma InvBounds(s: System)
    requires Inv(s)
    ensures s.acked <= |s.accepted| && s.tx.len <= |s.tx.buf|
  {
  }

  lemma OvertakenSender(s: System) returns (u: System)
    requires Slot(s) && Peer(s) && Outstanding(s) && s.tx.sending && s.tx.len != 0 && s.tx.xon && !GivesUp(s.tx)
    requires s.data == [] && s.replies == [] && !Arrived(s)
    ensures Enabled(s, Timer) && Enabled(Apply(s, Timer), PeerTakes(true))
    ensures Enabled(Apply(Apply(s, Timer), PeerTakes(true)), Receive)
    ensures Enabled(Apply(Apply(Apply(s, Timer), PeerTakes(true)), Receive), Transmit)
    ensures u == Apply(Apply(Apply(Apply(s, Timer), PeerTakes(true)), Receive), Transmit)
    ensures u.data != [] && Apply(u, PeerTakes(true)).accepted == s.accepted
    ensures Apply(u, PeerTakes(true)).delivered == s.accepted + [[]]
  {
    hide Apply;
    assert s.delivered + [s.accepted[s.acked]] == s.accepted;
    var s1 := TimerTransmits(s);
    var t := TakenAndAcknowledged(s1, s.accepted[s.acked]);
    EmptyPduTaken(t);
    u := Apply(t, Transmit);
  }

  /** A sender overtaken by its own timer: the PDU it has put in the buffer is retransmitted, taken
      and acknowledged before it transmits, and then it sends an empty PDU under the next bit. */
  lemma OvertakenSenderSendsEmptyPdu(s: System)
    requires Inv(s) && Outstanding(s) && s.tx.sending && s.tx.len != 0 && s.tx.xon && !GivesUp(s.tx)
    requires s.data == [] && s.replies == [] && !Arrived(s)
    ensures var run := [Timer, PeerTakes(true), Receive, Transmit, PeerTakes(true)];
      && Possible(s, run)
      && Final(s, run).accepted == s.accepted
      && Final(s, run).delivered == s.accepted + [[]]
  {
    var u := OvertakenSender(s);
    RunOfFive(s, Timer, PeerTakes(true), Receive, Transmit, PeerTakes(true));
  }

  lemma FirstFilledIn(a: Pdu) returns (run: seq<Step>, s: System)
    requires 0 < |a| <= MTU
    ensures Possible(Initial(), run) && s == Final(Initial(), run)
    ensures Inv(s) && Outstanding(s) && s.tx.sending && s.tx.len != 0 && s.tx.xon && !GivesUp(s.tx)
    ensures s.data == [] && s.replies == [] && !Arrived(s) && s.accepted == [a] && s.delivered == [] && Undisturbed(s)
  {
    var s0 := Initial();
    var s1 := Apply(s0, PeerBeats(true));
    assert s1.replies == [Heartbeat(true)];
    var s2 := Apply(s1, Receive);
    assert s2.data == [] && s2.replies == [];
    InitialInv();
    StepKeepsInv(s0, PeerBeats(true));
    StepKeepsInv(s1, Receive);
    SendKeepsInv(s2, a);
    s := Apply(s2, Send(a));
    RunOfTwo(s1, Receive, Send(a));
    RunCons(s0, PeerBeats(true), [Receive, Send(a)]);
    run := [PeerBeats(true)] + [Receive, Send(a)];
  }

  /** It happens from start-up: a is filled in, repeated by the timer, acknowledged, and then overtaken. */
  lemma OvertakenFromStart(a: Pdu) returns (run: seq<Step>)
    requires 0 < |a| <= MTU
    ensures Possible(Initial(), run)
    ensures Final(Initial(), run).accepted == [a] && Final(Initial(), run).delivered == [a, []]
  {
    hide Inv, Apply;
    var run0, s := FirstFilledIn(a);
    OvertakenSenderSendsEmptyPdu(s);
    var last := [Timer, PeerTakes(true), Receive, Transmit, PeerTakes(true)];
    RunAppend(Initial(), run0, last);
    run := run0 + last;
    assert [a] + [[]] == [a, []];
  }

  /** The acknowledgement has come before the transmission. */
  lemma Overtakes(s: System) returns (t: System)
    requires Inv(s) && s.tx.sending
    requires s.replies != [] && s.replies[0].Ack? && s.replies[0].xon && s.replies[0].bit == Bit(s)
    ensures Enabled(s, Receive) && Apply(s, Receive).overtaken && t == Onward(Apply(s, Receive))
    ensures t.tx.sending && t.tx.len == 0 && t.peerBit == Bit(t) && Undisturbed(t)
    ensures t.accepted == t.delivered == s.accepted
  {
    hide DataOk;
    NextBitFlips(s.tx.seqno);
    assert About(s.replies[0], Bit(s));
    assert s.delivered == s.accepted;
    t := Onward(Apply(s, Receive));
  }

  /** An acknowledgement that reaches a sender which has not transmitted yet is never harmless: whatever the
      channels hold, there is a schedule on which a PDU nobody has sent is passed up. */
  lemma OvertakingIsHarmful(s: System) returns (run: seq<Step>)
    requires Inv(s) && s.tx.sending
    requires s.replies != [] && s.replies[0].Ack? && s.replies[0].xon && s.replies[0].bit == Bit(s)
    ensures Enabled(s, Receive) && Apply(s, Receive).overtaken
    ensures var t := Onward(Apply(s, Receive));
      && Possible(t, run) && Undisturbed(Final(t, run))
      && Final(t, run).accepted == s.accepted && Final(t, run).delivered == s.accepted + [[]]
  {
    hide Inv, Apply;
    var t := Overtakes(s);
    var a := QuietLink(t);
    var u := Final(t, a);
    EmptyPduTaken(u);
    RunOfTwo(u, Transmit, PeerTakes(true));
    RunAppend(t, a, [Transmit, PeerTakes(true)]);
    run := a + [Transmit, PeerTakes(true)];
  }

  /** Before the sender transmits, and short of a give-up, its PDU can come to be acknowledged. */
  ghost predicate CanBeOvertaken(s: System) {
    exists run :: Possible(s, run) && Transmit !in run && !Final(s, run).gaveUp && Final(s, run).overtaken
  }

  /** Nothing on the link that could bring the acknowledgement about. */
  predicate Untouchable(s: System) {
    && s.tx.sending && !Holds(s.data, Bit(s)) && !Answers(s.replies, Bit(s))
    && (s.tx.len == 0 || GivesUp(s.tx))
  }

  lemma LosingAddsNothing(s: System, i: nat, bit: nat)
    ensures i < |s.data| && Holds(Remove(s.data, i), bit) ==> Holds(s.data, bit)
    ensures i < |s.replies| && Answers(Remove(s.replies, i), bit) ==> Answers(s.replies, bit)
  {
    if i < |s.data| && Holds(Remove(s.data, i), bit) {
      var k :| 0 <= k < |s.data| - 1 && Remove(s.data, i)[k].bit == bit;
      assert s.data[if k < i then k else k + 1].bit == bit;
    }
    if i < |s.replies| && Answers(Remove(s.replies, i), bit) {
      var k :| 0 <= k < |s.replies| - 1 && About(Remove(s.replies, i)[k], bit);
      assert About(s.replies[if k < i then k else k + 1], bit);
    }
  }

  lemma UntouchedByPeer(s: System, r: Reply, bit: nat)
    requires !Answers(s.replies, bit) && !About(r, bit)
    ensures !Answers(s.replies + [r], bit)
  {
  }

  lemma PeerKeepsUntouchable(s: System, step: Step)
    requires Untouchable(s) && Enabled(s, step) && (step.PeerTakes? || step.PeerRefuses? || step.PeerBeats?)
    ensures Untouchable(Apply(s, step)) && Apply(s, step).overtaken == s.overtaken
  {
    hide Answers;
    if s.data != [] {
      LosingAddsNothing(s, 0, Bit(s));
      HeadIsRemoved(s.data);
      assert s.data[0].bit != Bit(s);
    }
    match step
    case PeerTakes(xon) => UntouchedByPeer(s, Ack(s.data[0].bit, xon), Bit(s));
    case PeerRefuses(xon) => UntouchedByPeer(s, Nak(s.data[0].bit, xon), Bit(s));
    case PeerBeats(xon) => UntouchedByPeer(s, Heartbeat(xon), Bit(s));
  }

  lemma TaskKeepsUntouchable(s: System, step: Step)
    requires Untouchable(s) && Enabled(s, step) && (step.Receive? || step.Timer?) && !Apply(s, step).gaveUp
    ensures Untouchable(Apply(s, step)) && Apply(s, step).overtaken == s.overtaken
  {
    hide Holds;
    assert s.data + [] == s.data;
    if step.Receive? {
      assert !About(s.replies[0], Bit(s));
      LosingAddsNothing(s, 0, Bit(s));
      HeadIsRemoved(s.replies);
    }
  }

  lemma StepKeepsUntouchable(s: System, step: Step)
    requires Untouchable(s) && Enabled(s, step) && step != Transmit && !Apply(s, step).gaveUp
    ensures Untouchable(Apply(s, step)) && Apply(s, step).overtaken == s.overtaken
  {
    hide Holds, Answers;
    match step
    case LoseData(i) => LosingAddsNothing(s, i, Bit(s));
    case LoseReply(i) => LosingAddsNothing(s, i, Bit(s));
    case Receive => TaskKeepsUntouchable(s, step);
    case Timer => TaskKeepsUntouchable(s, step);
    case _ => if !step.Send? { PeerKeepsUntouchable(s, step); }
  }

  lemma {:induction false} GaveUpStays(s: System, run: seq<Step>)
    requires Possible(s, run) && s.gaveUp
    ensures Final(s, run).gaveUp
    decreases |run|
  {
    if run != [] { GaveUpStays(Apply(s, run[0]), run[1..]); }
  }

  lemma {:induction false} UntouchableIsNotOvertaken(s: System, run: seq<Step>)
    requires Untouchable(s) && Possible(s, run) && Transmit !in run && !Final(s, run).gaveUp
    ensures Final(s, run).overtaken == s.overtaken
    decreases |run|
  {
    hide Untouchable, Enabled, Apply;
    if run != [] {
      var t := Apply(s, run[0]);
      if t.gaveUp { GaveUpStays(t, run[1..]); }
      StepKeepsUntouchable(s, run[0]);
      UntouchableIsNotOvertaken(t, run[1..]);
    }
  }

  /** The frame is taken and acknowledged, and the acknowledgement finds the sender where it was. */
  lemma CopyOvertakes(u: System)
    requires u.tx.sending && u.tx.len <= |u.tx.buf| && u.tx.seqno < SEQ_MOD
    requires u.data != [] && u.data[0].bit == Bit(u) && u.replies == []
    ensures Enabled(u, PeerTakes(true)) && Enabled(Apply(u, PeerTakes(true)), Receive)
    ensures var f := Apply(Apply(u, PeerTakes(true)), Receive); f.overtaken && f.gaveUp == u.gaveUp
  {
    var u1 := Apply(u, PeerTakes(true));
    assert u1.replies == [Ack(Bit(u), true)];
    NextBitFlips(u.tx.seqno);
  }

  lemma FrameOvertakes(s: System) returns (run: seq<Step>)
    requires s.tx.sending && s.tx.len <= |s.tx.buf| && s.tx.seqno < SEQ_MOD && Holds(s.data, Bit(s))
    ensures Possible(s, run) && Transmit !in run && Final(s, run).overtaken && Final(s, run).gaveUp == s.gaveUp
  {
    hide Apply, Enabled;
    var i :| 0 <= i < |s.data| && s.data[i].bit == Bit(s);
    var a := LoseAllBut(s, i);
    var b := LoseReplies(Final(s, a));
    RunAppend(s, a, b);
    var u := Final(s, a + b);
    CopyOvertakes(u);
    RunOfTwo(u, PeerTakes(true), Receive);
    RunAppend(s, a + b, [PeerTakes(true), Receive]);
    run := a + b + [PeerTakes(true), Receive];
  }

  /** The heeded reply reaches the sender where it is: it is overtaken, or what it has not sent goes out. */
  lemma ReplyTaken(t: System) returns (u: System)
    requires t.tx.sending && t.tx.len <= |t.tx.buf| && t.tx.seqno < SEQ_MOD
    requires t.replies != [] && About(t.replies[0], Bit(t))
    ensures Enabled(t, Receive) && u == Apply(t, Receive) && u.gaveUp == t.gaveUp
    ensures t.replies[0].Ack? ==> u.overtaken
    ensures t.replies[0].Nak? ==>
      u.tx.sending && u.tx.len <= |u.tx.buf| && u.tx.seqno < SEQ_MOD && Holds(u.data, Bit(u))
  {
    NextBitFlips(t.tx.seqno);
    u := Apply(t, Receive);
    if t.replies[0].Nak? { assert u.data[|t.data|].bit == Bit(u); }
  }

  lemma ReplyOvertakes(s: System) returns (run: seq<Step>)
    requires s.tx.sending && s.tx.len <= |s.tx.buf| && s.tx.seqno < SEQ_MOD && Answers(s.replies, Bit(s))
    ensures Possible(s, run) && Transmit !in run && Final(s, run).overtaken && Final(s, run).gaveUp == s.gaveUp
  {
    hide Apply, Enabled;
    var j :| 0 <= j < |s.replies| && About(s.replies[j], Bit(s));
    var a := LoseAllRepliesBut(s, j);
    var t := Final(s, a);
    var u := ReplyTaken(t);
    RunCons(t, Receive, []);
    assert [Receive] + [] == [Receive];
    RunAppend(s, a, [Receive]);
    run := a + [Receive];
    if s.replies[j].Nak? {
      var b := FrameOvertakes(u);
      RunAppend(s, a + [Receive], b);
      run := a + [Receive] + b;
    }
  }

  lemma TimerOvertakes(s: System) returns (run: seq<Step>)
    requires s.tx.sending && s.tx.len <= |s.tx.buf| && s.tx.seqno < SEQ_MOD && s.tx.len != 0 && !GivesUp(s.tx)
    ensures Possible(s, run) && Transmit !in run && Final(s, run).overtaken && Final(s, run).gaveUp == s.gaveUp
  {
    var a := QuietReplies(s);
    var t := Final(s, a);
    var u := Apply(t, Timer);
    assert u.data[|s.data|].bit == Bit(u);
    RunCons(t, Timer, []);
    assert [Timer] + [] == [Timer];
    RunAppend(s, a, [Timer]);
    var b := FrameOvertakes(u);
    RunAppend(s, a + [Timer], b);
    run := a + [Timer] + b;
  }

  /** A sender that has not transmitted can be overtaken exactly if a frame or a heeded reply with its bit is
      on the link, or its PDU is not empty and the timer has not used up its attempts. */
  lemma OvertakenExactly(s: System)
    requires s.tx.sending && s.tx.len <= |s.tx.buf| && s.tx.seqno < SEQ_MOD && Undisturbed(s)
    ensures CanBeOvertaken(s) <==>
      Holds(s.data, Bit(s)) || Answers(s.replies, Bit(s)) || (s.tx.len != 0 && !GivesUp(s.tx))
  {
    hide Holds, Answers;
    if Holds(s.data, Bit(s)) {
      var run := FrameOvertakes(s);
    } else if Answers(s.replies, Bit(s)) {
      var run := ReplyOvertakes(s);
    } else if s.tx.len != 0 && !GivesUp(s.tx) {
      var run := TimerOvertakes(s);
    } else {
      forall run | Possible(s, run) && Transmit !in run && !Final(s, run).gaveUp
        ensures !Final(s, run).overtaken
      {
        UntouchableIsNotOvertaken(s, run);
      }
    }
  }

  // ---------------------------------------------------------------- the fields, updated in place

  class Transmitter {
    var seqno: nat
    var len: nat
    const buf: array<byte>
    var xon: bool
    var rxmtCnt: nat
    var flag: bool
    var sending: bool

    ghost predicate Valid()
      reads this
    {
      len <= buf.Length && seqno < SEQ_MOD
    }

    ghost function View(): Tx
      reads this, buf
    {
      Tx(seqno, len, buf[..], xon, rxmtCnt, flag, sending)
    }

    constructor ()
      ensures Valid() && View() == TxInit() && fresh(buf)
    {
      seqno, len, xon, rxmtCnt, flag, sending := 1, 0, false, 0, true, false;
      buf := new byte[MTU](_ => 0);
    }

    method Fill(pdu: Pdu) returns (taken: bool)
      requires Valid() && flag && !sending && |pdu| <= buf.Length
      modifies this, buf
      ensures Valid() && View() == TakeSlot(old(View()), pdu)
      ensures taken == (old(len) == 0) && !flag && seqno == old(seqno) && xon == old(xon)
      ensures if taken then len == |pdu| && buf[..len] == pdu && rxmtCnt == 0 && sending
              else len == old(len) && buf[..] == old(buf[..]) && rxmtCnt == old(rxmtCnt) && !sending
    {
      flag := false;
      taken := len == 0;
      if taken {
        rxmtCnt := 0;
        for i := 0 to |pdu|
          modifies buf
          invariant forall k :: 0 <= k < i ==> buf[k] == pdu[k]
          invariant forall k :: i <= k < buf.Length ==> buf[k] == old(buf[k])
        {
          buf[i] := pdu[i];
        }
        assert buf[..] == pdu + old(buf[..])[|pdu|..];
        len := |pdu|;
        sending := true;
      }
    }

    method Start() returns (out: seq<Frame>)
      requires Valid() && sending
      modifies this
      ensures Valid() && (View(), out) == FirstTransmission(old(View()))
    {
      sending := false;
      out := [];
      if xon { out := [Data(seqno % 2, buf[..len])]; }
    }

    method Receive(reply: Reply) returns (out: seq<Frame>)
      requires Valid()
      modifies this
      ensures Valid() && (View(), out) == OnReply(old(View()), reply)
      ensures var acknowledged := reply.Ack? && reply.xon && reply.bit == old(seqno) % 2;
        && (acknowledged <==> seqno != old(seqno))
        && (if acknowledged then len == 0 && flag else len == old(len) && flag == old(flag))
      ensures out != [] <==> reply.Nak? && reply.xon && reply.bit == seqno % 2
      ensures forall f :: f in out ==> f == Data(seqno % 2, buf[..len])
    {
      out := [];
      match reply
      case Heartbeat(x) =>
        xon := x;
      case Ack(bit, x) =>
        if x && seqno % 2 == bit {
          seqno := (seqno + 1) % SEQ_MOD;
          len := 0;
          flag := true;
        }
      case Nak(bit, x) =>
        if x && seqno % 2 == bit { out := [Data(seqno % 2, buf[..len])]; }
    }

    method TimeOut() returns (out: seq<Frame>)
      requires Valid()
      modifies this
      ensures Valid() && (View(), out) == OnTimer(old(View()))
      ensures seqno == old(seqno) && xon == old(xon) && sending == old(sending)
      ensures if old(GivesUp(View())) then flag && len == 0 else flag == old(flag) && len == old(len)
      ensures out != [] <==> old(len) != 0 && old(rxmtCnt) + 1 < RXMT_MAX && xon
      ensures forall f :: f in out ==> f == Data(seqno % 2, buf[..len])
    {
      out := [];
      if len != 0 {
        rxmtCnt := rxmtCnt + 1;
        if rxmtCnt < RXMT_MAX {
          if xon { out := [Data(seqno % 2, buf[..len])]; }
        } else {
          len := 0;
          flag := true;
        }
      }
    }
  }
}
