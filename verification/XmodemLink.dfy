/**
 * The retrying receiver against an XMODEM sender that sends its block again when it hears NAK, 'C' or
 * nothing, and goes on to the next when it hears ACK. The receiver speaks first in every turn: the octet
 * that it sends reaches the sender or not, the sender sends, and the receiver hears what the line makes of it.
 */
module XmodemLink {
  import opened Bytes
  import opened Xmodem

  /** Whether the sender hears the octet of this turn, and of the turns after it. */
  function Now(heard: seq<bool>): bool {
    heard != [] && heard[0]
  }

  function Later(heard: seq<bool>): seq<bool> {
    if heard == [] then [] else heard[1..]
  }

  /** The block that the sender sends in this turn; behind the last block that is the end. */
  function Turn(rx: Rcv, heard: seq<bool>, cur: nat): nat {
    if rx.sync == ACK && Now(heard) then cur + 1 else cur
  }

  /** What an attempt leads to: the end of the transfer, or the next attempt, in this call or the next one,
      with the block that is returned in between, if any. */
  datatype Step = Stop(ret: int) | More(rx: Rcv, s: Line, got: seq<seq<byte>>)

  function Next(rx: Rcv, s: Line): (n: Step)
    requires rx.retry >= 1
    ensures n.More? ==> n.rx.retry >= 1 && |n.s| <= |s| && (|n.s| < |s| || n.rx.retry < rx.retry)
  {
    match Try(rx, s)
    case Ended(_) => Stop(0)
    case Accepted(data, rest) => More(Rcv((rx.pktno + 1) % 256, 10, ACK), rest, [data])
    case Repeated(rest) => More(rx.(sync := ACK), rest, [])
    case Failed(sync, rest) =>
      if rx.retry == 1 then Stop(-1) else More(rx.(retry := rx.retry - 1, sync := sync), rest, [])
  }

  /** All through the transfer, an intact packet that the receiver hears is the one that the sender sends in
      that turn. The line may do anything else: damage packets, lose them, cut them short, put octets in. */
  ghost predicate Honest(rx: Rcv, s: Line, heard: seq<bool>, blocks: seq<seq<byte>>, cur: nat)
    requires rx.retry >= 1
    decreases |s|, rx.retry
  {
    var c, n := Turn(rx, heard, cur), Next(rx, s);
    && (Intact(Candidate(s)) ==> IsBlock(Candidate(s), blocks, c))
    && (n.More? ==> Honest(n.rx, n.s, Later(heard), blocks, c))
  }

  /** The block that the sender sends in the last turn of the transfer. */
  function LastTurn(rx: Rcv, s: Line, heard: seq<bool>, cur: nat): nat
    requires rx.retry >= 1
    decreases |s|, rx.retry
  {
    var c, n := Turn(rx, heard, cur), Next(rx, s);
    if n.Stop? then c else LastTurn(n.rx, n.s, Later(heard), c)
  }

  /** The attempt hears neither a complete packet nor the end. */
  predicate Pause(s: Line) {
    !Scan(s).Eot? && Candidate(s) == []
  }

  /** In some turn the sender hears an ACK, and has heard one before since the receiver last heard a complete
      packet: the same block has been acknowledged twice. */
  predicate AckHeardTwice(rx: Rcv, s: Line, heard: seq<bool>, once: bool)
    requires rx.retry >= 1
    decreases |s|, rx.retry
  {
    var ack, n := rx.sync == ACK && Now(heard), Next(rx, s);
    (once && ack) || (n.More? && AckHeardTwice(n.rx, n.s, Later(heard), Pause(s) && (once || ack)))
  }

  // ---------------------------------------------------------------- attempts and blocks

  /** What an attempt leads to, by the packet it hears. */
  lemma NextMeans(rx: Rcv, s: Line)
    requires rx.retry >= 1
    ensures var n, p := Next(rx, s), Candidate(s);
      if Intact(p) && p[0] == rx.pktno then
        n.More? && n.rx == Rcv((rx.pktno + 1) % 256, 10, ACK) && |n.got| == 1 && !Pause(s)
      else if Intact(p) && p[0] == (rx.pktno + 255) % 256 then
        n.More? && n.rx == Rcv(rx.pktno, rx.retry, ACK) && n.got == [] && !Pause(s)
      else
        n.More? ==>
          && n.rx == Rcv(rx.pktno, rx.retry - 1, if Pause(s) then rx.sync else NAK) && rx.retry > 1
          && n.got == []
    ensures Next(rx, s) == Stop(0) <==> Scan(s).Eot?
  {
    hide Intact;
    NothingHeard();
  }

  /** The blocks that are still to come, one attempt later. */
  lemma TransferUnfolds(rx: Rcv, s: Line)
    requires rx.retry >= 1
    ensures var n := Next(rx, s);
      Transfer(rx, s) == if n.Stop? then [] else n.got + Transfer(n.rx, n.s)
  {
    hide Try;
    TryShortens(rx, s);
  }

  lemma TurnUnfolds(rx: Rcv, s: Line, heard: seq<bool>, blocks: seq<seq<byte>>, cur: nat)
    requires rx.retry >= 1
    ensures var c, n := Turn(rx, heard, cur), Next(rx, s);
      && (Honest(rx, s, heard, blocks, cur) <==>
            && (Intact(Candidate(s)) ==> IsBlock(Candidate(s), blocks, c))
            && (n.More? ==> Honest(n.rx, n.s, Later(heard), blocks, c)))
      && LastTurn(rx, s, heard, cur) == if n.Stop? then c else LastTurn(n.rx, n.s, Later(heard), c)
  {
    hide Next, Candidate, Intact, IsBlock;
    NextShortens(rx, s);
  }

  lemma TwiceUnfolds(rx: Rcv, s: Line, heard: seq<bool>, once: bool)
    requires rx.retry >= 1
    ensures var ack, n := rx.sync == ACK && Now(heard), Next(rx, s);
      AckHeardTwice(rx, s, heard, once) <==>
        (once && ack) || (n.More? && AckHeardTwice(n.rx, n.s, Later(heard), Pause(s) && (once || ack)))
  {
    hide Next, Pause;
    NextShortens(rx, s);
  }

  lemma LastCallUnfolds(rx: Rcv, s: Line)
    requires rx.retry >= 1
    ensures var n := Next(rx, s);
      LastCall(rx, s).ret == if n.Stop? then n.ret else LastCall(n.rx, n.s).ret
  {
    hide Try;
    TryShortens(rx, s);
  }

  lemma NearUnfolds(rx: Rcv, s: Line, blocks: seq<seq<byte>>, expected: nat)
    requires rx.retry >= 1
    ensures var n := Next(rx, s);
      NearTransfer(rx, s, blocks, expected) <==>
        && (Intact(Candidate(s)) ==> NearPacket(Candidate(s), blocks, expected))
        && (n.More? ==> NearTransfer(n.rx, n.s, blocks, expected + |n.got|))
  {
    hide Try, Candidate, Intact, NearPacket;
    TryShortens(rx, s);
  }

  /** Two numbers within the window stand for the same block. */
  lemma SameNumber(i: nat, j: nat)
    requires i % 256 == j % 256 && -127 <= i - j <= 127
    ensures i == j
  {
  }

  lemma BlockIs(p: seq<byte>, blocks: seq<seq<byte>>, i: nat)
    requires IsBlock(p, blocks, i)
    ensures |p| >= 4 && p[0] == i % 256 && 1 <= i <= |blocks|
  {
    hide C.XmodemCrc;
  }

  lemma NumberBefore(i: nat)
    requires i >= 1
    ensures (i % 256 + 255) % 256 == (i - 1) % 256
  {
  }

  lemma NearIf(p: seq<byte>, blocks: seq<seq<byte>>, i: nat, expected: nat)
    requires IsBlock(p, blocks, i) && -127 <= i - expected <= 127
    ensures NearPacket(p, blocks, expected)
  {
  }

  /** The intact packet that is heard, when the sender is at most one block behind and not far ahead: it is
      taken for what it is. */
  lemma TurnMeans(rx: Rcv, s: Line, blocks: seq<seq<byte>>, c: nat, expected: nat)
    requires rx.pktno == expected % 256 && expected >= 1 && expected - 1 <= c <= expected + 15
    requires Intact(Candidate(s)) && IsBlock(Candidate(s), blocks, c)
    ensures var p := Candidate(s);
      && (p[0] == rx.pktno <==> c == expected)
      && (p[0] == (rx.pktno + 255) % 256 <==> c == expected - 1)
      && NearPacket(p, blocks, expected) && 1 <= c <= |blocks|
  {
    hide C.XmodemCrc, Intact, Candidate, IsBlock, NearPacket;
    BlockIs(Candidate(s), blocks, c);
    NumberBefore(expected);
    NearIf(Candidate(s), blocks, c, expected);
    if c % 256 == expected % 256 { SameNumber(c, expected); }
    if c % 256 == (expected - 1) % 256 { SameNumber(c, expected - 1); }
  }

  // ---------------------------------------------------------------- what is returned

  /** The sender is never far ahead: each turn in which it goes on without need costs a retry. */
  lemma {:induction false} HonestIsNear(
      rx: Rcv, s: Line, heard: seq<bool>, blocks: seq<seq<byte>>, cur: nat, expected: nat)
    requires 1 <= rx.retry <= 15 && rx.pktno == expected % 256 && 1 <= expected
    requires expected - 1 <= cur <= expected + 15 - rx.retry && Honest(rx, s, heard, blocks, cur)
    ensures NearTransfer(rx, s, blocks, expected)
    decreases |s|, rx.retry
  {
    hide Next, Candidate, Intact, IsBlock, NearPacket, Pause, NearTransfer, Honest, LastTurn;
    var c, n := Turn(rx, heard, cur), Next(rx, s);
    TurnUnfolds(rx, s, heard, blocks, cur);
    NextMeans(rx, s);
    NextShortens(rx, s);
    NearUnfolds(rx, s, blocks, expected);
    if Intact(Candidate(s)) { TurnMeans(rx, s, blocks, c, expected); }
    if n.More? { HonestIsNear(n.rx, n.s, Later(heard), blocks, c, expected + |n.got|); }
  }

  lemma NextShortens(rx: Rcv, s: Line)
    requires rx.retry >= 1
    ensures var n := Next(rx, s);
      n.More? ==> n.rx.retry >= 1 && |n.s| <= |s| && (|n.s| < |s| || n.rx.retry < rx.retry)
  {
  }

  /** Whatever the line does short of forging a packet, the receiver returns the first blocks of the sender,
      in order, without gap or repeat. */
  lemma ReturnsFirstBlocks(s: Line, heard: seq<bool>, blocks: seq<seq<byte>>)
    requires Honest(Init(), s, heard, blocks, 1)
    ensures Transfer(Init(), s) <= blocks
  {
    HonestIsNear(Init(), s, heard, blocks, 1, 1);
    BlocksInOrder(s, blocks);
  }

  // ---------------------------------------------------------------- what is skipped

  /** A sender that is ahead of the receiver stays ahead: no block is returned any more. */
  lemma {:induction false} AheadForGood(
      rx: Rcv, s: Line, heard: seq<bool>, blocks: seq<seq<byte>>, cur: nat, expected: nat)
    requires 1 <= rx.retry <= 15 && rx.pktno == expected % 256 && 1 <= expected
    requires expected < Turn(rx, heard, cur) <= expected + 16 - rx.retry && Honest(rx, s, heard, blocks, cur)
    ensures Transfer(rx, s) == [] && LastTurn(rx, s, heard, cur) > expected
    decreases |s|, rx.retry
  {
    hide Next, Candidate, Intact, IsBlock, Pause, Transfer, Honest, LastTurn;
    var c, n := Turn(rx, heard, cur), Next(rx, s);
    NextMeans(rx, s);
    NextShortens(rx, s);
    TransferUnfolds(rx, s);
    TurnUnfolds(rx, s, heard, blocks, cur);
    if Intact(Candidate(s)) { TurnMeans(rx, s, blocks, c, expected); }
    if n.More? { AheadForGood(n.rx, n.s, Later(heard), blocks, c, expected); }
  }

  lemma {:induction false} InStep(
      rx: Rcv, s: Line, heard: seq<bool>, blocks: seq<seq<byte>>, cur: nat, expected: nat, once: bool)
    requires 1 <= rx.retry <= 15 && rx.pktno == expected % 256 && 1 <= expected
    requires expected - 1 <= cur <= expected && Honest(rx, s, heard, blocks, cur)
    requires rx.sync == ACK ==> (once <==> cur == expected)
    ensures LastTurn(rx, s, heard, cur) >= expected - 1 + |Transfer(rx, s)|
    ensures LastTurn(rx, s, heard, cur) > expected + |Transfer(rx, s)| <==> AckHeardTwice(rx, s, heard, once)
    decreases |s|, rx.retry
  {
    hide Next, Candidate, Intact, IsBlock, Pause, Transfer, Honest, LastTurn, AckHeardTwice;
    var c, n := Turn(rx, heard, cur), Next(rx, s);
    var ack := rx.sync == ACK && Now(heard);
    TransferUnfolds(rx, s);
    TurnUnfolds(rx, s, heard, blocks, cur);
    TwiceUnfolds(rx, s, heard, once);
    if once && ack {
      AheadForGood(rx, s, heard, blocks, cur, expected);
    } else {
      NextMeans(rx, s);
      NextShortens(rx, s);
      if Intact(Candidate(s)) { TurnMeans(rx, s, blocks, c, expected); }
      if n.More? {
        InStep(n.rx, n.s, Later(heard), blocks, c, expected + |n.got|, Pause(s) && (once || ack));
      }
    }
  }

  /** The sender goes past a block that is never returned exactly if it hears two ACKs for one packet. The
      receiver sends its ACK again when nothing comes within its time limit, so that takes one packet that is
      lost and two answers that are not; damage alone never does it. */
  lemma SkipsExactly(s: Line, heard: seq<bool>, blocks: seq<seq<byte>>)
    requires Honest(Init(), s, heard, blocks, 1)
    ensures var last, n := LastTurn(Init(), s, heard, 1), |Transfer(Init(), s)|;
      last >= n && (last > n + 1 <==> AckHeardTwice(Init(), s, heard, false))
  {
    InStep(Init(), s, heard, blocks, 1, 1, false);
  }

  /** No attempt of the transfer ends in a pause. */
  predicate NeverPauses(rx: Rcv, s: Line)
    requires rx.retry >= 1
    decreases |s|, rx.retry
  {
    !Pause(s) && var n := Next(rx, s); n.More? ==> NeverPauses(n.rx, n.s)
  }

  lemma {:induction false} NoPauseNoSecondAck(rx: Rcv, s: Line, heard: seq<bool>)
    requires rx.retry >= 1 && NeverPauses(rx, s)
    ensures !AckHeardTwice(rx, s, heard, false)
    decreases |s|, rx.retry
  {
    hide Next, Pause;
    NextShortens(rx, s);
    var n := Next(rx, s);
    if n.More? { NoPauseNoSecondAck(n.rx, n.s, Later(heard)); }
  }

  /** A line that only damages packets, and loses what it likes of the answers, never makes the sender skip. */
  lemma DamageNeverSkips(s: Line, heard: seq<bool>, blocks: seq<seq<byte>>)
    requires Honest(Init(), s, heard, blocks, 1) && NeverPauses(Init(), s)
    ensures LastTurn(Init(), s, heard, 1) <= |Transfer(Init(), s)| + 1
  {
    NoPauseNoSecondAck(Init(), s, heard);
    SkipsExactly(s, heard, blocks);
  }

  /** A transfer that ends well, with the end that the sender sent, has returned every block exactly if none
      was skipped. */
  lemma EndsWell(s: Line, heard: seq<bool>, blocks: seq<seq<byte>>)
    requires Honest(Init(), s, heard, blocks, 1)
    requires LastCall(Init(), s).ret == 0 && LastTurn(Init(), s, heard, 1) == |blocks| + 1
    ensures Transfer(Init(), s) == blocks <==> !AckHeardTwice(Init(), s, heard, false)
  {
    ReturnsFirstBlocks(s, heard, blocks);
    SkipsExactly(s, heard, blocks);
  }

  // ---------------------------------------------------------------- the last block lost

  /** The line behind the first k blocks, on which all is well but for the last packet, which is lost. */
  function LastLost(blocks: seq<seq<byte>>, k: nat): Line
    requires k < |blocks|
    decreases |blocks| - k
  {
    if k == |blocks| - 1 then [Silence, Octet(EOT)]
    else Framed((k + 1) % 256, blocks[k]) + LastLost(blocks, k + 1)
  }

  predicate AllHeard(heard: seq<bool>, n: nat) {
    |heard| >= n && forall i :: 0 <= i < |heard| ==> heard[i]
  }

  /** The attempts on such a line. */
  lemma FramedTried(rx: Rcv, data: seq<byte>, rest: Line)
    requires |data| == 128 || |data| == 1024
    requires rx.retry >= 1
    ensures Next(rx, Framed(rx.pktno, data) + rest) == More(Rcv((rx.pktno + 1) % 256, 10, ACK), rest, [data])
    ensures Candidate(Framed(rx.pktno, data) + rest) == Packet(rx.pktno, data)
  {
    hide Packet, C.XmodemCrc, Scan, Intact;
    CleanPacketAccepted(rx, data, rest);
    var p := Packet(rx.pktno, data);
    PacketLength(rx.pktno, data);
    var s := Framed(rx.pktno, data) + rest;
    assert s[0] == Octet(StartOctet(p)) && s[1..] == Octets(p) + rest;
    ScanStart(s);
    TakeAll(p, rest);
  }

  lemma PauseTried(rx: Rcv)
    requires rx.retry >= 1
    ensures rx.retry > 1 ==> Next(rx, [Silence, Octet(EOT)]) == More(rx.(retry := rx.retry - 1), [Octet(EOT)], [])
    ensures Next(rx, [Octet(EOT)]) == Stop(0)
    ensures !Intact(Candidate([Silence, Octet(EOT)])) && !Intact(Candidate([Octet(EOT)]))
  {
    assert [Silence, Octet(EOT)][1..] == [Octet(EOT)];
    assert [Octet(EOT)][1..] == [];
  }

  /** The sender takes the ACK that it hears for its last block. */
  lemma EndTaken(rx: Rcv, blocks: seq<seq<byte>>, heard: seq<bool>)
    requires rx.retry >= 1 && rx.sync == ACK && Now(heard)
    ensures var s := [Octet(EOT)];
      && Honest(rx, s, heard, blocks, |blocks|) && LastTurn(rx, s, heard, |blocks|) == |blocks| + 1
      && Transfer(rx, s) == [] && LastCall(rx, s).ret == 0
  {
    hide Next, Candidate, Intact, Honest, LastTurn;
    PauseTried(rx);
    TurnUnfolds(rx, [Octet(EOT)], heard, blocks, |blocks|);
    TransferUnfolds(rx, [Octet(EOT)]);
    LastCallUnfolds(rx, [Octet(EOT)]);
  }

  lemma NumberIs(blocks: seq<seq<byte>>, k: nat)
    requires k < |blocks|
    ensures IsBlock(Packet((k + 1) % 256, blocks[k]), blocks, k + 1)
  {
  }

  /** The transfer ends well, with all blocks from the k-th on but the last. */
  ghost predicate EndsWithoutLast(rx: Rcv, s: Line, heard: seq<bool>, blocks: seq<seq<byte>>, cur: nat, k: nat)
    requires rx.retry >= 1 && k < |blocks|
  {
    && Honest(rx, s, heard, blocks, cur) && LastTurn(rx, s, heard, cur) == |blocks| + 1
    && Transfer(rx, s) == blocks[k..|blocks| - 1] && LastCall(rx, s).ret == 0
  }

  lemma LostNow(rx: Rcv, blocks: seq<seq<byte>>, heard: seq<bool>)
    requires |blocks| > 0 && rx.retry >= 2 && rx.sync == ACK && Now(heard) && Now(Later(heard))
    ensures EndsWithoutLast(rx, [Silence, Octet(EOT)], heard, blocks, |blocks| - 1, |blocks| - 1)
  {
    hide Next, Candidate, Intact, Transfer, LastCall, Honest, LastTurn, IsBlock;
    var s := [Silence, Octet(EOT)];
    TurnUnfolds(rx, s, heard, blocks, |blocks| - 1);
    TransferUnfolds(rx, s);
    LastCallUnfolds(rx, s);
    PauseTried(rx);
    EndTaken(rx.(retry := rx.retry - 1), blocks, Later(heard));
  }

  lemma OneMoreBlock(rx: Rcv, s: Line, heard: seq<bool>, blocks: seq<seq<byte>>, cur: nat, k: nat)
    requires rx.retry >= 1 && rx.pktno == (k + 1) % 256 && Turn(rx, heard, cur) == k + 1 && k + 1 < |blocks|
    requires |blocks[k]| == 128 || |blocks[k]| == 1024
    requires EndsWithoutLast(Rcv((k + 2) % 256, 10, ACK), s, Later(heard), blocks, k + 1, k + 1)
    ensures EndsWithoutLast(rx, Framed((k + 1) % 256, blocks[k]) + s, heard, blocks, cur, k)
  {
    hide Next, Candidate, Intact, Framed, Packet, Transfer, LastCall, Honest, LastTurn, IsBlock;
    var line := Framed((k + 1) % 256, blocks[k]) + s;
    FramedTried(rx, blocks[k], s);
    TurnUnfolds(rx, line, heard, blocks, cur);
    TransferUnfolds(rx, line);
    LastCallUnfolds(rx, line);
    NumberIs(blocks, k);
    assert blocks[k..|blocks| - 1] == [blocks[k]] + blocks[k + 1..|blocks| - 1];
  }

  /** After the first block. */
  lemma {:induction false} LostAfter(blocks: seq<seq<byte>>, k: nat, heard: seq<bool>)
    requires 0 < k < |blocks| && AllHeard(heard, |blocks| - k + 1)
    requires forall i :: 0 <= i < |blocks| ==> |blocks[i]| == 128 || |blocks[i]| == 1024
    ensures EndsWithoutLast(Rcv((k + 1) % 256, 10, ACK), LastLost(blocks, k), heard, blocks, k, k)
    decreases |blocks| - k
  {
    hide EndsWithoutLast, Framed;
    var rx := Rcv((k + 1) % 256, 10, ACK);
    if k == |blocks| - 1 {
      assert Later(heard)[0] == heard[1];
      LostNow(rx, blocks, heard);
    } else {
      LostAfter(blocks, k + 1, Later(heard));
      OneMoreBlock(rx, LastLost(blocks, k + 1), heard, blocks, k, k);
    }
  }

  /** One packet is lost, the last, and no answer: the receiver acknowledges the block before it once more, the
      sender takes that for its last block and ends the transmission, and the transfer ends well without it. */
  lemma LastBlockLost(blocks: seq<seq<byte>>, heard: seq<bool>)
    requires |blocks| >= 2 && AllHeard(heard, |blocks| + 1)
    requires forall i :: 0 <= i < |blocks| ==> |blocks[i]| == 128 || |blocks[i]| == 1024
    ensures var s := LastLost(blocks, 0);
      && Honest(Init(), s, heard, blocks, 1) && LastTurn(Init(), s, heard, 1) == |blocks| + 1
      && Transfer(Init(), s) == blocks[..|blocks| - 1] && LastCall(Init(), s).ret == 0
  {
    hide Framed, Honest, LastTurn, Transfer, LastCall;
    LostAfter(blocks, 1, Later(heard));
    OneMoreBlock(Init(), LastLost(blocks, 1), heard, blocks, 1, 0);
  }
}
