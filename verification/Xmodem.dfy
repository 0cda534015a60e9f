/**
 * The retrying XMODEM receiver of the flash loaders, as a function of what comes down the line: octets
 * and silences, and after the last of them silence for ever. XmodemReceiver has its two implementations.
 */
module Xmodem {
  import opened Bytes
  import C = Crc

  const SOH: byte := 0x01
  const STX: byte := 0x02
  const EOT: byte := 0x04
  const ACK: byte := 0x06
  const NAK: byte := 0x15
  const CAN: byte := 0x18
  const CRC_MODE: byte := 0x43 // 'C'

  datatype Event = Octet(c: byte) | Silence

  type Line = seq<Event>

  function Octets(b: seq<byte>): (s: Line)
    ensures |s| == |b| && forall i :: 0 <= i < |b| ==> s[i] == Octet(b[i])
  {
    seq(|b|, i requires 0 <= i < |b| => Octet(b[i]))
  }

  // ---------------------------------------------------------------- one attempt

  datatype Head = Start(cnt: nat, rest: Line) | Eot(rest: Line) | NoHead(rest: Line)

  /** Skip to the octet that starts a packet or ends the transmission. */
  function Scan(s: Line): (h: Head)
    ensures |h.rest| <= |s| && (!h.NoHead? ==> |h.rest| < |s|)
    ensures h.Start? ==> h.cnt == 128 || h.cnt == 1024
  {
    if s == [] then NoHead([])
    else if s[0] == Silence then NoHead(s[1..])
    else if s[0].c == STX then Start(1024, s[1..])
    else if s[0].c == SOH then Start(128, s[1..])
    else if s[0].c == EOT then Eot(s[1..])
    else Scan(s[1..])
  }

  datatype Taken = Taken(octets: seq<byte>, rest: Line) | Short(rest: Line)

  /** n octets without a silence between them. */
  function TakeOctets(s: Line, n: nat): (t: Taken)
    ensures |t.rest| <= |s| && (t.Taken? ==> |t.octets| == n)
  {
    if n == 0 then Taken([], s)
    else if s == [] then Short([])
    else if s[0] == Silence then Short(s[1..])
    else
      match TakeOctets(s[1..], n - 1)
      case Short(r) => Short(r)
      case Taken(p, r) => Taken([s[0].c] + p, r)
  }

  /** Drop everything up to the next silence. */
  function Flush(s: Line): (r: Line)
    ensures |r| <= |s|
  {
    if s == [] then [] else if s[0] == Silence then s[1..] else Flush(s[1..])
  }

  /** A packet behind its start octet: number, complement, data, check. */
  function Packet(number: byte, data: seq<byte>): seq<byte> {
    [number, 255 - number] + data + [C.XmodemCrc(data) / 256, C.XmodemCrc(data) % 256]
  }

  predicate Intact(p: seq<byte>) {
    && |p| >= 4
    && p[0] == 255 - p[1]
    && Word(p[|p| - 2], p[|p| - 1]) == C.XmodemCrc(p[2..|p| - 2])
  }

  /** `struct xmodem_rcv` without the packet buffer. */
  datatype Rcv = Rcv(pktno: byte, retry: nat, sync: byte)

  function Init(): Rcv {
    Rcv(1, 15, CRC_MODE)
  }

  datatype Attempt =
    | Ended(rest: Line)
    | Failed(sync: byte, rest: Line)
    | Repeated(rest: Line)
    | Accepted(data: seq<byte>, rest: Line)

  function Judge(rx: Rcv, p: seq<byte>, rest: Line): (a: Attempt)
    requires |p| >= 4
    ensures |a.rest| <= |rest|
  {
    if !Intact(p) then Failed(NAK, Flush(rest))
    else if p[0] == (rx.pktno + 255) % 256 then Repeated(rest)
    else if p[0] != rx.pktno then Failed(NAK, Flush(rest))
    else Accepted(p[2..|p| - 2], rest)
  }

  function Try(rx: Rcv, s: Line): (a: Attempt)
    ensures |a.rest| <= |s| && (!a.Failed? ==> |a.rest| < |s|)
    ensures a.Accepted? ==> |a.data| == 128 || |a.data| == 1024
  {
    match Scan(s)
    case NoHead(rest) => Failed(rx.sync, rest)
    case Eot(rest) => Ended(rest)
    case Start(cnt, rest) =>
      match TakeOctets(rest, cnt + 4)
      case Short(r) => Failed(rx.sync, r)
      case Taken(p, r) => Judge(rx, p, r)
  }

  // ---------------------------------------------------------------- one call

  /** What `xmodem_rcv_pkt` returns, the receiver and the data it leaves, the line behind what it has
      read, and what it has sent. */
  datatype Result = Result(ret: int, rx: Rcv, data: seq<byte>, rest: Line, sent: seq<byte>)

  /** The result of a call that has sent these octets before. */
  function After(octets: seq<byte>, r: Result): Result {
    r.(sent := octets + r.sent)
  }

  function RcvPkt(rx: Rcv, s: Line): (r: Result)
    requires rx.retry >= 1
    ensures |r.rest| <= |s| && (r.ret > 0 ==> |r.rest| < |s| && r.rx.retry == 10)
    decreases |s|, rx.retry
  {
    match Try(rx, s)
    case Ended(rest) => Result(0, rx, [], rest, [rx.sync, ACK, ACK])
    case Accepted(data, rest) => Result(|data|, Rcv((rx.pktno + 1) % 256, 10, ACK), data, rest, [rx.sync])
    case Repeated(rest) =>
      After([rx.sync], RcvPkt(rx.(sync := ACK), rest))
    case Failed(sync, rest) =>
      if rx.retry == 1 then Result(-1, rx.(retry := 0, sync := sync), [], rest, [rx.sync, CAN, CAN, CAN])
      else After([rx.sync], RcvPkt(rx.(retry := rx.retry - 1, sync := sync), rest))
  }

  /** The attempts of the call that failed. */
  function Failures(rx: Rcv, s: Line): nat
    requires rx.retry >= 1
    decreases |s|, rx.retry
  {
    match Try(rx, s)
    case Ended(_) => 0
    case Accepted(_, _) => 0
    case Repeated(rest) => Failures(rx.(sync := ACK), rest)
    case Failed(sync, rest) => 1 + if rx.retry == 1 then 0 else Failures(rx.(retry := rx.retry - 1, sync := sync), rest)
  }

  /** The call ends on every line, and gives up on exactly the failed attempt that uses up the retries;
      an accepted block sets them back to ten, and nothing else does. */
  lemma {:induction false} GivesUpExactly(rx: Rcv, s: Line)
    requires rx.retry >= 1
    ensures var r := RcvPkt(rx, s);
      && (r.ret == -1 <==> Failures(rx, s) == rx.retry)
      && Failures(rx, s) <= rx.retry
      && r.rx.retry == (if r.ret > 0 then 10 else rx.retry - Failures(rx, s))
      && (r.ret == -1 || r.ret == 0 || r.ret == 128 || r.ret == 1024)
    decreases |s|, rx.retry
  {
    match Try(rx, s)
    case Repeated(rest) => GivesUpExactly(rx.(sync := ACK), rest);
    case Failed(sync, rest) =>
      if rx.retry > 1 { GivesUpExactly(rx.(retry := rx.retry - 1, sync := sync), rest); }
    case _ =>
  }

  lemma TryReads(rx: Rcv, s: Line)
    requires s != []
    ensures |Try(rx, s).rest| < |s|
  {
  }

  lemma TryShortens(rx: Rcv, s: Line)
    ensures var a := Try(rx, s); |a.rest| <= |s| && (!a.Failed? ==> |a.rest| < |s|)
  {
  }

  /** A call reads something, as long as there is something to read. */
  lemma CallReads(rx: Rcv, s: Line)
    requires rx.retry >= 1 && s != []
    ensures |RcvPkt(rx, s).rest| < |s|
  {
    hide Try;
    TryReads(rx, s);
  }

  // ---------------------------------------------------------------- what is accepted

  ghost predicate Suffix(rest: Line, s: Line) {
    |rest| <= |s| && s[|s| - |rest|..] == rest
  }

  lemma {:induction false} ScanSuffix(s: Line)
    ensures Suffix(Scan(s).rest, s)
    ensures Scan(s).Start? ==>
      |Scan(s).rest| < |s| && s[|s| - |Scan(s).rest| - 1] == Octet(if Scan(s).cnt == 1024 then STX else SOH)
  {
    if s != [] { ScanSuffix(s[1..]); }
  }

  lemma {:induction false} FlushSuffix(s: Line)
    ensures Suffix(Flush(s), s)
  {
    if s != [] { FlushSuffix(s[1..]); }
  }

  lemma {:induction false} TakeSuffix(s: Line, n: nat)
    ensures Suffix(TakeOctets(s, n).rest, s)
    decreases n
  {
    if n > 0 && s != [] && s[0] != Silence { TakeSuffix(s[1..], n - 1); }
  }

  lemma {:induction false} TakenOctets(s: Line, n: nat)
    requires TakeOctets(s, n).Taken?
    ensures s == Octets(TakeOctets(s, n).octets) + TakeOctets(s, n).rest
    decreases n
  {
    var t := TakeOctets(s, n);
    if n > 0 {
      TakenOctets(s[1..], n - 1);
      var u := TakeOctets(s[1..], n - 1);
      assert t.octets == [s[0].c] + u.octets;
      assert Octets(t.octets) == [s[0]] + Octets(u.octets);
      assert s == [s[0]] + s[1..];
    }
  }

  lemma SuffixTransitive(a: Line, b: Line, c: Line)
    requires Suffix(a, b) && Suffix(b, c)
    ensures Suffix(a, c)
  {
    assert c[|c| - |b|..][|b| - |a|..] == c[|c| - |a|..];
  }

  lemma TrySuffix(rx: Rcv, s: Line)
    ensures Suffix(Try(rx, s).rest, s)
  {
    hide Scan, TakeOctets, Flush, Intact, Suffix;
    ScanSuffix(s);
    var h := Scan(s);
    if h.Start? {
      TakeSuffix(h.rest, h.cnt + 4);
      var t := TakeOctets(h.rest, h.cnt + 4);
      SuffixTransitive(t.rest, h.rest, s);
      if t.Taken? {
        FlushSuffix(t.rest);
        SuffixTransitive(Flush(t.rest), t.rest, s);
      }
    }
  }

  lemma IntactIsPacket(p: seq<byte>)
    requires Intact(p)
    ensures p == Packet(p[0], p[2..|p| - 2])
  {
    hide C.XmodemCrc;
    var crc := C.XmodemCrc(p[2..|p| - 2]);
    assert p[|p| - 2] == crc / 256 && p[|p| - 1] == crc % 256;
  }

  /** The octets of a packet, its start octet first. */
  function Framed(number: byte, data: seq<byte>): Line {
    Octets([if |data| == 1024 then STX else SOH] + Packet(number, data))
  }

  /** The part of s in front of rest ends with this packet. */
  ghost predicate EndsWithPacket(s: Line, rest: Line, number: byte, data: seq<byte>) {
    |rest| + |Framed(number, data)| <= |s| && Suffix(Framed(number, data) + rest, s)
  }

  lemma AttemptAcceptsPacket(rx: Rcv, s: Line)
    requires Try(rx, s).Accepted?
    ensures EndsWithPacket(s, Try(rx, s).rest, rx.pktno, Try(rx, s).data)
  {
    hide Intact, EndsWithPacket, Scan, TakeOctets;
    AcceptedCandidate(rx, s);
    CandidateStands(s);
  }

  /** An intact packet that an attempt hears stands on the line, in front of what the attempt leaves. */
  lemma CandidateStands(s: Line)
    requires Intact(Candidate(s))
    ensures Scan(s).Start?
    ensures var p, h := Candidate(s), Scan(s);
      |p| >= 4 && EndsWithPacket(s, TakeOctets(h.rest, h.cnt + 4).rest, p[0], p[2..|p| - 2])
  {
    hide Intact, Suffix, TakeOctets, Scan, EndsWithPacket;
    ScanSuffix(s);
    NothingHeard();
    var h := Scan(s);
    CandidateIs(s);
    TakenOctets(h.rest, h.cnt + 4);
    var t := TakeOctets(h.rest, h.cnt + 4);
    PacketThere(s, h.rest, t.octets, t.rest);
  }

  /** A block is returned only on account of an intact packet under the expected number, which is the last
      thing read; the next number is expected then, with ten retries, and will be asked for with ACK. */
  lemma {:induction false} BlockComesFromPacket(rx: Rcv, s: Line)
    requires rx.retry >= 1 && RcvPkt(rx, s).ret > 0
    ensures var r := RcvPkt(rx, s);
      && EndsWithPacket(s, r.rest, rx.pktno, r.data) && r.ret == |r.data|
      && r.rx == Rcv((rx.pktno + 1) % 256, 10, ACK)
    decreases |s|, rx.retry
  {
    hide EndsWithPacket, Try, Suffix;
    TrySuffix(rx, s);
    TryShortens(rx, s);
    match Try(rx, s)
    case Accepted(data, rest) =>
      AttemptAcceptsPacket(rx, s);
    case Repeated(rest) =>
      BlockComesFromPacket(rx.(sync := ACK), rest);
      PacketInSuffix(s, rest, RcvPkt(rx, s).rest, rx.pktno, RcvPkt(rx, s).data);
    case Failed(sync, rest) =>
      BlockComesFromPacket(rx.(retry := rx.retry - 1, sync := sync), rest);
      PacketInSuffix(s, rest, RcvPkt(rx, s).rest, rx.pktno, RcvPkt(rx, s).data);
  }

  lemma PacketInSuffix(s: Line, t: Line, rest: Line, number: byte, data: seq<byte>)
    requires Suffix(t, s) && EndsWithPacket(t, rest, number, data)
    ensures EndsWithPacket(s, rest, number, data)
  {
    SuffixTransitive(Framed(number, data) + rest, t, s);
  }

  // ---------------------------------------------------------------- whole transfers

  /** The blocks of successive calls up to the first that returns none. */
  function Transfer(rx: Rcv, s: Line): seq<seq<byte>>
    requires rx.retry >= 1
    decreases |s|
  {
    var r := RcvPkt(rx, s);
    if r.ret <= 0 then [] else [r.data] + Transfer(r.rx, r.rest)
  }

  /** The call that ends a transfer: the first that returns no block. */
  function LastCall(rx: Rcv, s: Line): (r: Result)
    requires rx.retry >= 1
    ensures r.ret <= 0
    decreases |s|
  {
    var r := RcvPkt(rx, s);
    if r.ret <= 0 then r else LastCall(r.rx, r.rest)
  }

  lemma {:induction false} CallSuffix(rx: Rcv, s: Line)
    requires rx.retry >= 1
    ensures Suffix(RcvPkt(rx, s).rest, s)
    decreases |s|, rx.retry
  {
    hide Try, Suffix;
    TrySuffix(rx, s);
    TryShortens(rx, s);
    match Try(rx, s)
    case Repeated(rest) =>
      CallSuffix(rx.(sync := ACK), rest);
      SuffixTransitive(RcvPkt(rx, s).rest, rest, s);
    case Failed(sync, rest) =>
      if rx.retry > 1 {
        CallSuffix(rx.(retry := rx.retry - 1, sync := sync), rest);
        SuffixTransitive(RcvPkt(rx, s).rest, rest, s);
      }
    case _ =>
  }

  lemma {:induction false} LastCallSuffix(rx: Rcv, s: Line)
    requires rx.retry >= 1
    ensures Suffix(LastCall(rx, s).rest, s)
    ensures s != [] ==> |LastCall(rx, s).rest| < |s|
    decreases |s|
  {
    hide Try, Suffix;
    if s != [] { CallReads(rx, s); }
    CallSuffix(rx, s);
    var r := RcvPkt(rx, s);
    if r.ret > 0 {
      LastCallSuffix(r.rx, r.rest);
      SuffixTransitive(LastCall(rx, s).rest, r.rest, s);
      SuffixShorter(LastCall(rx, s).rest, r.rest);
    }
  }

  lemma SuffixShorter(a: Line, b: Line)
    requires Suffix(a, b)
    ensures |a| <= |b|
  {
  }

  /** The receiver and the line after n blocks. */
  function AfterBlocks(rx: Rcv, s: Line, n: nat): (r: (Rcv, Line))
    requires rx.retry >= 1 && n <= |Transfer(rx, s)|
    ensures r.0.retry >= 1
    decreases n
  {
    if n == 0 then (rx, s) else AfterBlocks(RcvPkt(rx, s).rx, RcvPkt(rx, s).rest, n - 1)
  }

  /** The n-th block since the start carries number n mod 256, in an intact packet. */
  lemma {:induction false} BlocksAreNumbered(rx: Rcv, s: Line, n: nat)
    requires rx.retry >= 1 && n < |Transfer(rx, s)|
    ensures var (q, t) := AfterBlocks(rx, s, n);
      && q.pktno == (rx.pktno + n) % 256
      && EndsWithPacket(t, RcvPkt(q, t).rest, q.pktno, Transfer(rx, s)[n])
      && RcvPkt(q, t).ret == |Transfer(rx, s)[n]|
    decreases n
  {
    hide EndsWithPacket, RcvPkt;
    BlockComesFromPacket(rx, s);
    if n > 0 { BlocksAreNumbered(RcvPkt(rx, s).rx, RcvPkt(rx, s).rest, n - 1); }
  }

  /** An intact packet that the receiver hears is block i of the sender, counted from 1, and i is within
      127 of the block expected. */
  ghost predicate NearPacket(p: seq<byte>, blocks: seq<seq<byte>>, expected: nat) {
    exists i :: IsBlock(p, blocks, i) && -127 <= i - expected <= 127
  }

  predicate IsBlock(p: seq<byte>, blocks: seq<seq<byte>>, i: int) {
    1 <= i <= |blocks| && p == Packet(i % 256, blocks[i - 1])
  }

  /** The octets that an attempt takes for a packet. */
  function Candidate(s: Line): seq<byte> {
    match Scan(s)
    case Start(cnt, rest) =>
      (match TakeOctets(rest, cnt + 4)
       case Taken(p, _) => p
       case Short(_) => [])
    case _ => []
  }

  /** All through the transfer, every intact packet heard is near. */
  ghost predicate NearTransfer(rx: Rcv, s: Line, blocks: seq<seq<byte>>, expected: nat)
    requires rx.retry >= 1
    decreases |s|, rx.retry
  {
    && (Intact(Candidate(s)) ==> NearPacket(Candidate(s), blocks, expected))
    && match Try(rx, s)
       case Ended(_) => true
       case Accepted(_, rest) => NearTransfer(Rcv((rx.pktno + 1) % 256, 10, ACK), rest, blocks, expected + 1)
       case Repeated(rest) => NearTransfer(rx.(sync := ACK), rest, blocks, expected)
       case Failed(sync, rest) =>
         rx.retry > 1 ==> NearTransfer(rx.(retry := rx.retry - 1, sync := sync), rest, blocks, expected)
  }

  lemma NearNumberDecides(p: seq<byte>, blocks: seq<seq<byte>>, expected: nat)
    requires NearPacket(p, blocks, expected) && p[0] == expected % 256
    ensures IsBlock(p, blocks, expected)
  {
    hide C.XmodemCrc;
    var i :| IsBlock(p, blocks, i) && -127 <= i - expected <= 127;
    assert p[0] == i % 256;
    assert i == expected;
  }

  lemma AcceptedCandidate(rx: Rcv, s: Line)
    requires Try(rx, s).Accepted?
    ensures var p := Candidate(s);
      Intact(p) && p[0] == rx.pktno && p[2..|p| - 2] == Try(rx, s).data
  {
    hide Intact;
  }

  lemma {:induction false} NearCall(rx: Rcv, s: Line, blocks: seq<seq<byte>>, expected: nat)
    requires rx.retry >= 1 && rx.pktno == expected % 256 && NearTransfer(rx, s, blocks, expected)
    ensures var r := RcvPkt(rx, s);
      r.ret > 0 ==>
        && 1 <= expected <= |blocks| && r.data == blocks[expected - 1] && r.rx.retry >= 1 && |r.rest| < |s|
        && r.rx.pktno == (expected + 1) % 256 && NearTransfer(r.rx, r.rest, blocks, expected + 1)
    decreases |s|, rx.retry
  {
    hide Try, Candidate, Intact, NearPacket, Packet;
    match Try(rx, s)
    case Ended(_) =>
    case Accepted(data, rest) =>
      AcceptedCandidate(rx, s);
      NearNumberDecides(Candidate(s), blocks, expected);
      PacketIsIntact(expected % 256, blocks[expected - 1]);
    case Repeated(rest) => NearCall(rx.(sync := ACK), rest, blocks, expected);
    case Failed(sync, rest) =>
      if rx.retry > 1 { NearCall(rx.(retry := rx.retry - 1, sync := sync), rest, blocks, expected); }
  }

  lemma {:induction false} TransferFrom(rx: Rcv, s: Line, blocks: seq<seq<byte>>, expected: nat)
    requires rx.retry >= 1 && rx.pktno == expected % 256 && 1 <= expected && NearTransfer(rx, s, blocks, expected)
    requires expected <= |blocks| + 1
    ensures Transfer(rx, s) <= blocks[expected - 1..]
    decreases |s|
  {
    hide RcvPkt, NearTransfer;
    NearCall(rx, s, blocks, expected);
    var r := RcvPkt(rx, s);
    if r.ret > 0 {
      TransferFrom(r.rx, r.rest, blocks, expected + 1);
      assert blocks[expected - 1..] == [blocks[expected - 1]] + blocks[expected..];
    }
  }

  /** However packets are damaged, lost, repeated or delayed: if every intact packet heard is within 127
      blocks of the one expected, the blocks returned are the sender's, in order, without gap or repeat. */
  lemma BlocksInOrder(s: Line, blocks: seq<seq<byte>>)
    requires NearTransfer(Init(), s, blocks, 1)
    ensures Transfer(Init(), s) <= blocks
  {
    TransferFrom(Init(), s, blocks, 1);
    assert blocks[0..] == blocks;
  }

  // ---------------------------------------------------------------- round trip

  function CleanLine(blocks: seq<seq<byte>>, number: byte): Line {
    if blocks == [] then [Octet(EOT)] else Framed(number, blocks[0]) + CleanLine(blocks[1..], (number + 1) % 256)
  }

  lemma {:induction false} TakeAll(p: seq<byte>, rest: Line)
    ensures TakeOctets(Octets(p) + rest, |p|) == Taken(p, rest)
  {
    var s := Octets(p) + rest;
    if p == [] {
      assert s == rest;
    } else {
      TakeAll(p[1..], rest);
      assert s[1..] == Octets(p[1..]) + rest;
      assert [p[0]] + p[1..] == p;
    }
  }

  lemma PacketIsIntact(number: byte, data: seq<byte>)
    ensures var p := Packet(number, data); Intact(p) && p[2..|p| - 2] == data && p[0] == number
  {
    hide C.XmodemCrc;
    var p := Packet(number, data);
    assert p[2..|p| - 2] == data;
  }

  lemma CleanPacketAccepted(rx: Rcv, data: seq<byte>, rest: Line)
    requires |data| == 128 || |data| == 1024
    ensures Try(rx, Framed(rx.pktno, data) + rest) == Accepted(data, rest)
  {
    hide Packet, Intact, C.XmodemCrc;
    PacketIsIntact(rx.pktno, data);
    var p := Packet(rx.pktno, data);
    PacketLength(rx.pktno, data);
    var s := Framed(rx.pktno, data) + rest;
    assert s[1..] == Octets(p) + rest;
    TakeAll(p, rest);
  }

  lemma PacketLength(number: byte, data: seq<byte>)
    ensures |Packet(number, data)| == |data| + 4
  {
  }

  lemma CleanEnd(rx: Rcv)
    requires rx.retry >= 1
    ensures RcvPkt(rx, [Octet(EOT)]).ret == 0
  {
  }

  /** An undisturbed transfer of any number of blocks returns them all. */
  lemma {:induction false} CleanTransfer(rx: Rcv, blocks: seq<seq<byte>>)
    requires rx.retry >= 1 && forall i :: 0 <= i < |blocks| ==> |blocks[i]| == 128 || |blocks[i]| == 1024
    ensures Transfer(rx, CleanLine(blocks, rx.pktno)) == blocks
    decreases |blocks|
  {
    hide Framed, Try, Scan;
    CleanEnd(rx);
    if blocks != [] {
      CleanPacketAccepted(rx, blocks[0], CleanLine(blocks[1..], (rx.pktno + 1) % 256));
      CleanTransfer(Rcv((rx.pktno + 1) % 256, 10, ACK), blocks[1..]);
    }
  }

  // ---------------------------------------------------------------- what is answered

  /** Octets that neither start a packet nor end the transmission. */
  predicate Plain(junk: seq<byte>) {
    SOH !in junk && STX !in junk && EOT !in junk
  }

  /** As many octets as follow a start octet. */
  predicate Complete(p: seq<byte>) {
    |p| == 132 || |p| == 1028
  }

  function StartOctet(p: seq<byte>): byte {
    if |p| == 1028 then STX else SOH
  }

  lemma {:induction false} ScanSkips(junk: seq<byte>, s: Line)
    requires Plain(junk)
    ensures Scan(Octets(junk) + s) == Scan(s)
  {
    var t := Octets(junk) + s;
    if junk == [] {
      assert t == s;
    } else {
      ScanSkips(junk[1..], s);
      assert t[1..] == Octets(junk[1..]) + s;
      assert t[0] == Octet(junk[0]) && junk[0] in junk;
    }
  }

  /** What is dropped before the answer to a bad packet: all that comes without a pause. */
  lemma {:induction false} FlushDrops(noise: seq<byte>, more: Line)
    ensures Flush(Octets(noise) + [Silence] + more) == more
    ensures Flush(Octets(noise)) == []
  {
    var t := Octets(noise) + [Silence] + more;
    if noise == [] {
      assert t[0] == Silence && t[1..] == more;
    } else {
      FlushDrops(noise[1..], more);
      assert t[1..] == Octets(noise[1..]) + [Silence] + more;
      assert Octets(noise)[1..] == Octets(noise[1..]);
    }
  }

  lemma {:induction false} TakeCut(part: seq<byte>, n: nat, rest: Line)
    requires |part| < n
    ensures TakeOctets(Octets(part) + [Silence] + rest, n) == Short(rest)
    decreases n
  {
    var s := Octets(part) + [Silence] + rest;
    if part == [] {
      assert s[0] == Silence && s[1..] == rest;
    } else {
      TakeCut(part[1..], n - 1, rest);
      assert s[1..] == Octets(part[1..]) + [Silence] + rest;
    }
  }

  /** What comes of an attempt that fails: one retry less and the next attempt, or with the last the end. */
  function TryAgain(rx: Rcv, sync: byte, rest: Line): Result
    requires rx.retry >= 1
  {
    if rx.retry == 1 then Result(-1, Rcv(rx.pktno, 0, sync), [], rest, [rx.sync, CAN, CAN, CAN])
    else After([rx.sync], RcvPkt(Rcv(rx.pktno, rx.retry - 1, sync), rest))
  }

  /** A call, by its first attempt. */
  lemma CallIs(rx: Rcv, s: Line)
    requires rx.retry >= 1
    ensures match Try(rx, s)
      case Ended(rest) => RcvPkt(rx, s) == Result(0, rx, [], rest, [rx.sync, ACK, ACK])
      case Accepted(data, rest) =>
        RcvPkt(rx, s) == Result(|data|, Rcv((rx.pktno + 1) % 256, 10, ACK), data, rest, [rx.sync])
      case Repeated(rest) => RcvPkt(rx, s) == After([rx.sync], RcvPkt(Rcv(rx.pktno, rx.retry, ACK), rest))
      case Failed(sync, rest) => RcvPkt(rx, s) == TryAgain(rx, sync, rest)
  {
    hide Try;
    TryShortens(rx, s);
  }

  /** A complete packet, whatever its octets: it is answered with NAK unless it is intact and the expected
      one, which is returned, or the one before, which is answered with ACK. NAK goes out after the next
      pause; all that comes up to there is dropped. */
  lemma PacketAnswered(rx: Rcv, junk: seq<byte>, p: seq<byte>, rest: Line)
    requires rx.retry >= 1 && Plain(junk) && Complete(p)
    ensures var data := p[2..|p| - 2];
      RcvPkt(rx, Octets(junk) + Octets([StartOctet(p)] + p) + rest) ==
        if p == Packet(rx.pktno, data) then
          Result(|data|, Rcv((rx.pktno + 1) % 256, 10, ACK), data, rest, [rx.sync])
        else if p == Packet((rx.pktno + 255) % 256, data) then
          After([rx.sync], RcvPkt(Rcv(rx.pktno, rx.retry, ACK), rest))
        else TryAgain(rx, NAK, Flush(rest))
  {
    hide Packet, Flush, Try, Judge, Octets, Plain, RcvPkt, TryAgain;
    var data := p[2..|p| - 2];
    CallIs(rx, Octets(junk) + Octets([StartOctet(p)] + p) + rest);
    PacketTried(rx, junk, p, rest);
    PacketJudged(rx, p, rest);
    PacketIsIntact(rx.pktno, data);
    PacketIsIntact((rx.pktno + 255) % 256, data);
  }

  lemma PacketTried(rx: Rcv, junk: seq<byte>, p: seq<byte>, rest: Line)
    requires Plain(junk) && Complete(p)
    ensures Try(rx, Octets(junk) + Octets([StartOctet(p)] + p) + rest) == Judge(rx, p, rest)
  {
    hide Judge, Scan, TakeOctets, Plain;
    var s := Octets([StartOctet(p)] + p) + rest;
    assert Octets(junk) + Octets([StartOctet(p)] + p) + rest == Octets(junk) + s;
    ScanSkips(junk, s);
    assert s[0] == Octet(StartOctet(p)) && s[1..] == Octets(p) + rest;
    ScanStart(s);
    TakeAll(p, rest);
  }

  lemma PacketJudged(rx: Rcv, p: seq<byte>, rest: Line)
    requires |p| >= 4
    ensures var data := p[2..|p| - 2];
      Judge(rx, p, rest) ==
        if p == Packet(rx.pktno, data) then Accepted(data, rest)
        else if p == Packet((rx.pktno + 255) % 256, data) then Repeated(rest)
        else Failed(NAK, Flush(rest))
  {
    hide Intact, Packet, Flush;
    var data := p[2..|p| - 2];
    if Intact(p) { IntactIsPacket(p); }
    PacketIsIntact(rx.pktno, data);
    PacketIsIntact((rx.pktno + 255) % 256, data);
  }

  /** So a packet whose data has been damaged within two consecutive octets is answered with NAK, always. */
  lemma DamageAnswered(rx: Rcv, junk: seq<byte>, number: byte, data: seq<byte>, bad: seq<byte>, i: nat, rest: Line)
    requires rx.retry >= 1 && Plain(junk) && C.Burst(data, bad, i) && (|data| == 128 || |data| == 1024)
    ensures var p := [number, 255 - number] + bad + [C.XmodemCrc(data) / 256, C.XmodemCrc(data) % 256];
      RcvPkt(rx, Octets(junk) + Octets([StartOctet(p)] + p) + rest) == TryAgain(rx, NAK, Flush(rest))
  {
    hide C.XmodemCrc, RcvPkt, Flush, TryAgain, Octets, Plain;
    var p := [number, 255 - number] + bad + [C.XmodemCrc(data) / 256, C.XmodemCrc(data) % 256];
    PacketAnswered(rx, junk, p, rest);
    C.XmodemCrcDetectsBurst(data, bad, i);
    assert p[2..|p| - 2] == bad;
    OtherCheck(p, bad, C.XmodemCrc(data), rx.pktno);
    OtherCheck(p, bad, C.XmodemCrc(data), (rx.pktno + 255) % 256);
  }

  lemma OtherCheck(p: seq<byte>, data: seq<byte>, crc: int, number: byte)
    requires 0 <= crc < 0x10000 && |p| == |data| + 4 && p[|p| - 2] == crc / 256 && p[|p| - 1] == crc % 256
    requires crc != C.XmodemCrc(data)
    ensures p != Packet(number, data)
  {
    hide C.XmodemCrc;
    var q := Packet(number, data);
    assert Word(q[|q| - 2], q[|q| - 1]) == C.XmodemCrc(data);
  }

  lemma ScanStart(s: Line)
    requires s != [] && s[0].Octet?
    ensures s[0].c == STX ==> Scan(s) == Start(1024, s[1..])
    ensures s[0].c == SOH ==> Scan(s) == Start(128, s[1..])
    ensures s[0].c == EOT ==> Scan(s) == Eot(s[1..])
  {
  }

  /** A pause before a packet has begun, or within one: the octet that was sent last is sent again. */
  lemma PauseAnswered(rx: Rcv, junk: seq<byte>, first: byte, part: seq<byte>, rest: Line)
    requires rx.retry >= 1 && Plain(junk) && (first == SOH || first == STX)
    requires |part| < if first == STX then 1028 else 132
    ensures RcvPkt(rx, Octets(junk) + [Silence] + rest) == TryAgain(rx, rx.sync, rest)
    ensures RcvPkt(rx, Octets(junk) + ([Octet(first)] + Octets(part) + [Silence] + rest)) == TryAgain(rx, rx.sync, rest)
  {
    hide Scan, TakeOctets, Judge, RcvPkt, TryAgain;
    var a := [Silence] + rest;
    CallIs(rx, Octets(junk) + a);
    assert Octets(junk) + [Silence] + rest == Octets(junk) + a;
    ScanSkips(junk, a);
    ScanSilence(a);
    assert a[1..] == rest;
    var b := [Octet(first)] + Octets(part) + [Silence] + rest;
    CallIs(rx, Octets(junk) + b);
    ScanSkips(junk, b);
    ScanStart(b);
    assert b[1..] == Octets(part) + [Silence] + rest;
    TakeCut(part, if first == STX then 1028 else 132, rest);
  }

  lemma ScanSilence(s: Line)
    requires s != [] && s[0] == Silence
    ensures Scan(s) == NoHead(s[1..])
  {
  }

  lemma EndAnswered(rx: Rcv, junk: seq<byte>, rest: Line)
    requires rx.retry >= 1 && Plain(junk)
    ensures RcvPkt(rx, Octets(junk) + ([Octet(EOT)] + rest)) == Result(0, rx, [], rest, [rx.sync, ACK, ACK])
  {
    hide Scan, RcvPkt;
    var s := [Octet(EOT)] + rest;
    CallIs(rx, Octets(junk) + s);
    ScanSkips(junk, s);
    ScanStart(s);
    assert s[1..] == rest;
  }

  /** Nobody there: as many requests as there are retries, and three cancels. */
  lemma {:induction false} NobodyThere(rx: Rcv)
    requires rx.retry >= 1
    ensures RcvPkt(rx, []) ==
      Result(-1, rx.(retry := 0), [], [], seq(rx.retry, _ => rx.sync) + [CAN, CAN, CAN])
    decreases rx.retry
  {
    var requests: seq<byte> := seq(rx.retry, _ => rx.sync);
    assert requests[0] == rx.sync;
    if rx.retry > 1 {
      NobodyThere(rx.(retry := rx.retry - 1));
      assert requests == [rx.sync] + seq(rx.retry - 1, _ => rx.sync);
      assert [rx.sync] + (seq(rx.retry - 1, _ => rx.sync) + [CAN, CAN, CAN]) == requests + [CAN, CAN, CAN];
    } else {
      assert requests == [rx.sync];
    }
  }

  /** So the first call asks fifteen times. */
  lemma FirstCallAsks()
    ensures RcvPkt(Init(), []).sent == seq(15, _ => CRC_MODE) + [CAN, CAN, CAN]
  {
    NobodyThere(Init());
  }

  /** An intact packet with this number stands on the line. */
  ghost predicate HasPacket(s: Line, number: byte) {
    exists rest, data :: EndsWithPacket(s, rest, number, data)
  }

  lemma HeardPacket(s: Line)
    requires Intact(Candidate(s))
    ensures |Candidate(s)| > 0 && HasPacket(s, Candidate(s)[0])
  {
    hide Intact, EndsWithPacket, Candidate, Scan, TakeOctets;
    CandidateStands(s);
  }

  lemma CandidateIs(s: Line)
    requires Candidate(s) != []
    ensures Scan(s).Start? && TakeOctets(Scan(s).rest, Scan(s).cnt + 4).Taken?
    ensures Candidate(s) == TakeOctets(Scan(s).rest, Scan(s).cnt + 4).octets && |Candidate(s)| == Scan(s).cnt + 4
    ensures Scan(s).cnt == 128 || Scan(s).cnt == 1024
  {
  }

  lemma PacketThere(s: Line, at: Line, p: seq<byte>, rest: Line)
    requires Intact(p) && at == Octets(p) + rest && Suffix(at, s) && |at| < |s|
    requires s[|s| - |at| - 1] == Octet(if |p| == 1028 then STX else SOH)
    ensures EndsWithPacket(s, rest, p[0], p[2..|p| - 2])
  {
    hide C.XmodemCrc, Suffix, Packet;
    var data := p[2..|p| - 2];
    IntactIsPacket(p);
    assert Framed(p[0], data) == [s[|s| - |at| - 1]] + Octets(p);
    assert Framed(p[0], data) + rest == [s[|s| - |at| - 1]] + at;
    OneBefore(s, at);
    SuffixShorter([s[|s| - |at| - 1]] + at, s);
  }

  lemma RepeatedCandidate(rx: Rcv, s: Line)
    requires Try(rx, s).Repeated?
    ensures Intact(Candidate(s)) && Candidate(s)[0] == (rx.pktno + 255) % 256
  {
    hide Intact;
  }

  lemma NothingHeard()
    ensures !Intact([])
  {
  }

  lemma OneBefore(s: Line, t: Line)
    requires Suffix(t, s) && |t| < |s|
    ensures Suffix([s[|s| - |t| - 1]] + t, s)
  {
  }

  /** A call that did not begin with ACK sends none until an intact copy of the block before stands on the
      line, short of the two at the end. */
  lemma {:induction false} AckNeedsPacket(rx: Rcv, s: Line)
    requires rx.retry >= 1 && rx.sync != ACK && RcvPkt(rx, s).ret != 0 && ACK in RcvPkt(rx, s).sent
    ensures HasPacket(s, (rx.pktno + 255) % 256)
    decreases |s|, rx.retry
  {
    hide EndsWithPacket, Suffix, Scan, TakeOctets, Intact;
    TrySuffix(rx, s);
    TryShortens(rx, s);
    match Try(rx, s)
    case Repeated(rest) =>
      RepeatedCandidate(rx, s);
      HeardPacket(s);
    case Failed(sync, rest) =>
      var now := rx.(retry := rx.retry - 1, sync := sync);
      AckNeedsPacket(now, rest);
      var t, data :| EndsWithPacket(rest, t, (rx.pktno + 255) % 256, data);
      PacketInSuffix(s, rest, t, (rx.pktno + 255) % 256, data);
  }
}
