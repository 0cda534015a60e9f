/**
 * The two implementations of the receiver: `xmodem_rcv_pkt` of the serial loader looks for the start of
 * a packet octet by octet; `usb_xmodem_rcv_pkt` of the USB loader reads up to 128 octets at a time and
 * moves what lies behind the start octet. Both are tied to the same function of the line.
 */
module XmodemReceiver {
  import opened Bytes
  import C = Crc
  import X = Xmodem

  const PKT_SIZE := 1029

  /** The octets of s before its first silence. */
  function Ready(s: X.Line): (n: nat)
    ensures n <= |s| && forall i :: 0 <= i < n ==> s[i].Octet?
  {
    if s == [] || s[0] == X.Silence then 0 else 1 + Ready(s[1..])
  }

  /** What has been taken with the octets b in front of it. */
  function Behind(b: seq<byte>, t: X.Taken): X.Taken {
    match t
    case Short(r) => X.Short(r)
    case Taken(p, r) => X.Taken(b + p, r)
  }

  lemma BehindTwice(a: seq<byte>, b: seq<byte>, t: X.Taken)
    ensures Behind(a, Behind(b, t)) == Behind(a + b, t)
    ensures Behind([], t) == t
  {
    if t.Taken? {
      assert a + (b + t.octets) == (a + b) + t.octets;
      assert [] + t.octets == t.octets;
    }
  }

  lemma {:induction false} TakeChunk(s: X.Line, b: seq<byte>, n: nat)
    requires |b| <= n && |b| <= |s| && forall k :: 0 <= k < |b| ==> s[k] == X.Octet(b[k])
    ensures X.TakeOctets(s, n) == Behind(b, X.TakeOctets(s[|b|..], n - |b|))
    decreases |b|
  {
    hide X.TakeOctets, Behind;
    if b == [] {
      assert s[0..] == s;
      BehindTwice([], [], X.TakeOctets(s, n));
    } else {
      assert s[0] == X.Octet(b[0]);
      TakeChunk(s[1..], b[1..], n - 1);
      assert s[1..][|b| - 1..] == s[|b|..];
      TakeOne(s, n);
      BehindTwice([b[0]], b[1..], X.TakeOctets(s[|b|..], n - |b|));
      assert [b[0]] + b[1..] == b;
    }
  }

  lemma TakeNone(s: X.Line, got: seq<byte>)
    ensures Behind(got, X.TakeOctets(s, 0)) == X.Taken(got, s)
  {
    assert got + [] == got;
  }

  lemma TakeSilence(s: X.Line, n: nat, got: seq<byte>)
    requires n > 0
    ensures Ready(s) == 0 ==> Behind(got, X.TakeOctets(s, n)) == X.Short(if s == [] then [] else s[1..])
  {
  }

  lemma TakeOne(s: X.Line, n: nat)
    requires n > 0 && s != [] && s[0].Octet?
    ensures X.TakeOctets(s, n) == Behind([s[0].c], X.TakeOctets(s[1..], n - 1))
  {
  }

  lemma {:induction false} FlushChunk(s: X.Line, n: nat)
    requires n <= Ready(s)
    ensures X.Flush(s) == X.Flush(s[n..])
    decreases n
  {
    if n > 0 {
      FlushChunk(s[1..], n - 1);
      assert s[1..][n - 1..] == s[n..];
    }
  }

  /** Octets already read, and the line behind them. */
  function Ahead(b: seq<byte>, s: X.Line): X.Line {
    X.Octets(b) + s
  }

  lemma NoneLeft(b: seq<byte>, s: X.Line)
    requires b == []
    ensures Ahead(b, s) == s
  {
  }

  lemma ChunkRead(s: X.Line, b: seq<byte>, rest: X.Line)
    requires |b| <= |s| && rest == s[|b|..] && forall k :: 0 <= k < |b| ==> s[k] == X.Octet(b[k])
    ensures Ahead(b, rest) == s
  {
  }

  /** The line is rest without at most its first 127 events, octets without a silence between them. */
  predicate DropsChunk(rest: X.Line, coming: X.Line) {
    |coming| <= |rest| <= |coming| + 127 &&
    var n := |rest| - |coming|;
    rest[n..] == coming && forall k :: 0 <= k < n ==> rest[k].Octet?
  }

  lemma ChunkDropped(b: seq<byte>, s: X.Line)
    requires |b| < 128
    ensures DropsChunk(Ahead(b, s), s)
  {
  }

  lemma HeadOff(b: seq<byte>, s: X.Line)
    requires b != []
    ensures Ahead(b, s) != [] && Ahead(b, s)[0] == X.Octet(b[0]) && Ahead(b, s)[1..] == Ahead(b[1..], s)
  {
  }

  /** The line: what is still to come, and what has been sent. */
  class Port {
    var coming: X.Line
    var sent: seq<byte>

    constructor (line: X.Line)
      ensures coming == line && sent == []
    {
      coming, sent := line, [];
    }

    /** A read of at most `len` octets delivers some of those that are ready, as many as it likes; with
        none ready it times out. */
    method Recv(buf: array<byte>, at: nat, len: nat) returns (n: nat)
      requires 0 < len && at + len <= buf.Length
      modifies this`coming, buf
      ensures n <= len && n <= Ready(old(coming)) && (n == 0 <==> Ready(old(coming)) == 0)
      ensures n > 0 ==> coming == old(coming)[n..]
      ensures n == 0 ==> coming == if old(coming) == [] then [] else old(coming)[1..]
      ensures forall k :: 0 <= k < n ==> X.Octet(buf[at + k]) == old(coming)[k]
      ensures forall k :: 0 <= k < buf.Length && !(at <= k < at + n) ==> buf[k] == old(buf[k])
    {
      if coming == [] { return 0; }
      if coming[0] == X.Silence {
        coming := coming[1..];
        return 0;
      }
      var ready := Ready(coming);
      assert ready > 0;
      n :| 0 < n <= len && n <= ready;
      forall k | at <= k < at + n { buf[k] := coming[k - at].c; }
      coming := coming[n..];
    }

    method Send(octets: seq<byte>)
      modifies this`sent
      ensures sent == old(sent) + octets
    {
      sent := sent + octets;
    }
  }

  /** How an attempt ends. */
  datatype Verdict = Done | Retry | Again | Block(cnt: nat)

  /** The verdict, the receiver and the line that an attempt leads to. */
  ghost predicate Leads(a: X.Attempt, rx: X.Rcv, verdict: Verdict, now: X.Rcv, coming: X.Line) {
    match a
    case Ended(rest) => verdict == Done && now == rx && coming == rest
    case Failed(sync, rest) => verdict == Retry && now == rx.(sync := sync) && coming == rest
    case Repeated(rest) => verdict == Again && now == rx.(sync := X.ACK) && coming == rest
    case Accepted(data, rest) =>
      verdict == Block(|data|) && now == X.Rcv((rx.pktno + 1) % 256, 10, X.ACK) && coming == rest
  }

  lemma NothingBefore(r: X.Result)
    ensures X.After([], r) == r
  {
    assert [] + r.sent == r.sent;
  }

  /** The call, by the outcome of its first attempt, when it has sent `out` before. */
  lemma CallUnfolds(rx: X.Rcv, s: X.Line, out: seq<byte>)
    requires rx.retry >= 1
    ensures var r := X.After(out, X.RcvPkt(rx, s));
      match X.Try(rx, s)
      case Ended(rest) => r == X.Result(0, rx, [], rest, out + [rx.sync] + [X.ACK, X.ACK])
      case Accepted(data, rest) =>
        r == X.Result(|data|, X.Rcv((rx.pktno + 1) % 256, 10, X.ACK), data, rest, out + [rx.sync])
      case Repeated(rest) => |rest| < |s| && r == X.After(out + [rx.sync], X.RcvPkt(rx.(sync := X.ACK), rest))
      case Failed(sync, rest) =>
        |rest| <= |s| &&
        if rx.retry == 1 then
          r == X.Result(-1, rx.(retry := 0, sync := sync), [], rest, out + [rx.sync] + [X.CAN, X.CAN, X.CAN])
        else
          r == X.After(out + [rx.sync], X.RcvPkt(rx.(retry := rx.retry - 1, sync := sync), rest))
  {
    hide X.Try;
    var a := X.Try(rx, s);
    X.TryShortens(rx, s);
    match a
    case Ended(rest) => assert out + [rx.sync] + [X.ACK, X.ACK] == out + [rx.sync, X.ACK, X.ACK];
    case Accepted(_, _) =>
    case Repeated(rest) => Prepends(out, [rx.sync], X.RcvPkt(rx.(sync := X.ACK), rest));
    case Failed(sync, rest) =>
      if rx.retry == 1 {
        assert out + [rx.sync] + [X.CAN, X.CAN, X.CAN] == out + [rx.sync, X.CAN, X.CAN, X.CAN];
      } else {
        Prepends(out, [rx.sync], X.RcvPkt(rx.(retry := rx.retry - 1, sync := sync), rest));
      }
  }

  lemma Prepends(a: seq<byte>, b: seq<byte>, r: X.Result)
    ensures X.After(a, X.After(b, r)) == X.After(a + b, r)
  {
    assert a + (b + r.sent) == (a + b) + r.sent;
  }

  class Receiver {
    var pktno: byte
    var retry: nat
    var sync: byte
    const pkt: array<byte>

    ghost predicate Valid()
      reads this
    {
      pkt.Length == PKT_SIZE
    }

    ghost function View(): X.Rcv
      reads this
    {
      X.Rcv(pktno, retry, sync)
    }

    constructor ()
      ensures Valid() && View() == X.Init() && fresh(pkt)
    {
      pktno, retry, sync := 1, 15, X.CRC_MODE;
      pkt := new byte[PKT_SIZE](_ => 0);
    }

    /** `xmodem_rcv_init`. */
    method Init()
      modifies this
      ensures View() == X.Init()
    {
      pktno, retry, sync := 1, 15, X.CRC_MODE;
    }

    // ---------------------------------------------------------------- the start of a packet

    /** Octet by octet: 128 or 1024 data octets follow, or 0 for the end, or -1 for a silence. */
    method ScanOctets(port: Port) returns (cnt: int)
      requires Valid()
      modifies port`coming, pkt
      ensures cnt == -1 || cnt == 0 || cnt == 128 || cnt == 1024
      ensures match X.Scan(old(port.coming))
        case Start(c, rest) => cnt == c && port.coming == rest
        case Eot(rest) => cnt == 0 && port.coming == rest
        case NoHead(rest) => cnt == -1 && port.coming == rest
    {
      while true
        invariant X.Scan(port.coming) == X.Scan(old(port.coming))
        decreases |port.coming|
      {
        var ret := port.Recv(pkt, 0, 1);
        if ret == 0 { return -1; }
        var c := pkt[0];
        if c == X.STX { return 1024; }
        if c == X.SOH { return 128; }
        if c == X.EOT { return 0; }
      }
    }

    /** The next octet of the chunk, which is read in first if the last one is used up. */
    method NextOctet(port: Port, pos: nat, rem: nat) returns (ok: bool, c: byte, next: nat, left: nat)
      requires Valid() && pos + rem <= 128
      modifies port`coming, pkt
      ensures var ahead := old(Ahead(pkt[pos..pos + rem], port.coming));
        if ok then 1 <= next && next + left <= 128 && left < 128 && ahead != [] && ahead[0] == X.Octet(c)
          && Ahead(pkt[next..next + left], port.coming) == ahead[1..]
        else if ahead == [] then port.coming == []
        else ahead[0] == X.Silence && port.coming == ahead[1..]
    {
      hide Ahead;
      next, left := pos, rem;
      ghost var ahead := Ahead(pkt[pos..pos + rem], port.coming);
      if left == 0 {
        NoneLeft(pkt[pos..pos + rem], port.coming);
        left := port.Recv(pkt, 0, 128);
        next := 0;
        if left == 0 { return false, 0, 0, 0; }
        ChunkRead(ahead, pkt[next..next + left], port.coming);
      }
      c := pkt[next];
      HeadOff(pkt[next..next + left], port.coming);
      assert pkt[next..next + left][1..] == pkt[next + 1..next + left];
      ok, next, left := true, next + 1, left - 1;
    }

    /** Chunk by chunk: `rem` octets of the last read are left at `pos`. */
    method ScanChunks(port: Port) returns (cnt: int, pos: nat, rem: nat)
      requires Valid()
      modifies port`coming, pkt
      ensures cnt == -1 || cnt == 0 || cnt == 128 || cnt == 1024
      ensures pos + rem <= 128 && rem < 128 && (cnt > 0 ==> pos >= 1)
      ensures match X.Scan(old(port.coming))
        case Start(c, rest) => cnt == c && Ahead(pkt[pos..pos + rem], port.coming) == rest
        case Eot(rest) => cnt == 0 && Ahead(pkt[pos..pos + rem], port.coming) == rest
        case NoHead(rest) => cnt == -1 && port.coming == rest
    {
      hide Ahead;
      pos, rem := 0, 0;
      NoneLeft(pkt[0..0], port.coming);
      while true
        invariant pos + rem <= 128
        invariant X.Scan(Ahead(pkt[pos..pos + rem], port.coming)) == X.Scan(old(port.coming))
        decreases |Ahead(pkt[pos..pos + rem], port.coming)|
      {
        var ok, c;
        ok, c, pos, rem := NextOctet(port, pos, rem);
        if !ok { return -1, 0, 0; }
        if c == X.STX { return 1024, pos, rem; }
        if c == X.SOH { return 128, pos, rem; }
        if c == X.EOT { return 0, pos, rem; }
      }
    }

    // ---------------------------------------------------------------- the packet

    /** The loop that fills the packet, in reads of any size. */
    method FillBody(port: Port, at: nat, len: nat) returns (ok: bool)
      requires Valid() && at + len <= pkt.Length
      modifies port`coming, pkt
      ensures match X.TakeOctets(old(port.coming), len)
        case Taken(p, rest) => ok && pkt[at..at + len] == p && port.coming == rest
        case Short(rest) => !ok && port.coming == rest
      ensures forall k :: 0 <= k < at || at + len <= k < pkt.Length ==> pkt[k] == old(pkt[k])
    {
      hide X.TakeOctets, Behind, Ready;
      var cp := at;
      var rem := len;
      ghost var got: seq<byte> := [];
      BehindTwice([], [], X.TakeOctets(port.coming, rem));
      while rem > 0
        invariant cp == at + |got| && |got| + rem == len
        invariant pkt[at..cp] == got
        invariant forall k :: 0 <= k < at || at + len <= k < pkt.Length ==> pkt[k] == old(pkt[k])
        invariant X.TakeOctets(old(port.coming), len) == Behind(got, X.TakeOctets(port.coming, rem))
      {
        ghost var before := port.coming;
        TakeSilence(before, rem, got);
        var ret := port.Recv(pkt, cp, rem);
        if ret == 0 { return false; }
        ghost var chunk := pkt[cp..cp + ret];
        assert pkt[at..cp] == got;
        assert pkt[at..cp + ret] == pkt[at..cp] + chunk;
        assert forall k :: 0 <= k < ret ==> before[k] == X.Octet(chunk[k]);
        TakeChunk(before, chunk, rem);
        BehindTwice(got, chunk, X.TakeOctets(port.coming, rem - ret));
        got := got + chunk;
        rem := rem - ret;
        cp := cp + ret;
      }
      TakeNone(port.coming, got);
      ok := true;
    }

    /** What the last chunk holds behind the start octet goes to the front of the packet. */
    method MoveDown(pos: nat, rem: nat)
      requires Valid() && 1 <= pos && pos + rem <= pkt.Length
      modifies pkt
      ensures pkt[1..1 + rem] == old(pkt[pos..pos + rem])
    {
      for i := 0 to rem
        invariant forall k :: 1 <= k < 1 + i ==> pkt[k] == old(pkt[pos + k - 1])
        invariant forall k :: 1 + i <= k < pkt.Length ==> pkt[k] == old(pkt[k])
      {
        pkt[1 + i] := pkt[pos + i];
      }
      ghost var first := old(pkt[pos..pos + rem]);
      forall k | 0 <= k < rem
        ensures pkt[1..1 + rem][k] == first[k]
      {
        assert pkt[1..1 + rem][k] == pkt[1 + k] == old(pkt[pos + k]) == first[k];
      }
    }

    method FlushLine(port: Port)
      requires Valid()
      modifies port`coming, pkt
      ensures port.coming == X.Flush(old(port.coming))
    {
      var ret := 1;
      while ret > 0
        invariant X.Flush(old(port.coming)) == if ret > 0 then X.Flush(port.coming) else port.coming
        decreases |port.coming|, ret
      {
        ghost var before := port.coming;
        ret := port.Recv(pkt, 0, 1024);
        FlushChunk(before, ret);
      }
    }

    /** Number, complement, check, sequence: what a complete packet leads to. */
    method JudgePacket(port: Port, cnt: nat) returns (verdict: Verdict)
      requires Valid() && cnt + 5 <= pkt.Length
      modifies this, port`coming, pkt
      ensures var a := X.Judge(old(View()), old(pkt[1..cnt + 5]), old(port.coming));
        Leads(a, old(View()), verdict, View(), port.coming)
      ensures verdict.Block? ==> verdict.cnt == cnt && pkt[3..3 + cnt] == old(pkt[3..3 + cnt])
      ensures verdict.Block? ==> X.Judge(old(View()), old(pkt[1..cnt + 5]), old(port.coming)).data == pkt[3..3 + cnt]
      ensures verdict != Done
    {
      hide C.XmodemCrc;
      ghost var p := pkt[1..cnt + 5];
      PartOfSlice(pkt[..], 1, cnt + 4, 2, cnt + 2);
      assert pkt[..][1..1 + (cnt + 4)] == p && pkt[..][1 + 2..1 + (cnt + 2)] == pkt[3..3 + cnt];
      var seqno, nseq := pkt[1], pkt[2];
      if seqno != 255 - nseq || Word(pkt[3 + cnt], pkt[4 + cnt]) != C.XmodemCrc(pkt[3..3 + cnt]) {
        FlushLine(port);
        sync := X.NAK;
        return Retry;
      }
      if seqno == (pktno + 255) % 256 {
        sync := X.ACK;
        return Again;
      }
      if seqno != pktno {
        FlushLine(port);
        sync := X.NAK;
        return Retry;
      }
      pktno := (pktno + 1) % 256;
      retry := 10;
      sync := X.ACK;
      verdict := Block(cnt);
    }

    // ---------------------------------------------------------------- one attempt

    method TryOctets(port: Port) returns (verdict: Verdict)
      requires Valid()
      modifies this, port`coming, pkt
      ensures Leads(X.Try(old(View()), old(port.coming)), old(View()), verdict, View(), port.coming)
      ensures verdict.Block? ==>
        verdict.cnt <= 1024 && X.Try(old(View()), old(port.coming)).data == pkt[3..3 + verdict.cnt]
    {
      hide X.Judge, X.TakeOctets, X.Scan;
      var cnt := ScanOctets(port);
      if cnt < 0 { return Retry; }
      if cnt == 0 { return Done; }
      var ok := FillBody(port, 1, cnt + 4);
      if !ok { return Retry; }
      verdict := JudgePacket(port, cnt);
    }

    /** The packet behind its start octet, of which the last chunk has brought the first octets. */
    method FillRest(port: Port, rem: nat, len: nat, ghost first: seq<byte>) returns (ok: bool)
      requires Valid() && rem <= len < pkt.Length && pkt[1..1 + rem] == first
      modifies port`coming, pkt
      ensures match X.TakeOctets(Ahead(first, old(port.coming)), len)
        case Taken(p, rest) => ok && pkt[1..1 + len] == p && port.coming == rest
        case Short(rest) => !ok && port.coming == rest
    {
      hide X.TakeOctets;
      ghost var left, was := Ahead(first, port.coming), pkt[..];
      assert left[|first|..] == port.coming;
      TakeChunk(left, first, len);
      ok := FillBody(port, 1 + rem, len - rem);
      assert pkt[1..1 + rem] == was[1..1 + rem] == first;
      assert pkt[1..1 + len] == pkt[1..1 + rem] + pkt[1 + rem..1 + len];
    }

    method TryChunks(port: Port) returns (verdict: Verdict)
      requires Valid()
      modifies this, port`coming, pkt
      ensures var a := X.Try(old(View()), old(port.coming));
        && (if verdict == Done then a.Ended? && View() == old(View()) && DropsChunk(a.rest, port.coming)
            else Leads(a, old(View()), verdict, View(), port.coming))
        && (verdict.Block? ==> verdict.cnt <= 1024 && a.Accepted? && a.data == pkt[3..3 + verdict.cnt])
    {
      hide X.Judge, X.TakeOctets, X.Scan, Ahead, DropsChunk;
      var cnt, pos, rem := ScanChunks(port);
      if cnt < 0 { return Retry; }
      if cnt == 0 {
        ChunkDropped(pkt[pos..pos + rem], port.coming);
        return Done;
      }
      ghost var first := pkt[pos..pos + rem];
      MoveDown(pos, rem);
      var ok := FillRest(port, rem, cnt + 4, first);
      if !ok { return Retry; }
      verdict := JudgePacket(port, cnt);
    }

    // ---------------------------------------------------------------- one call

    /** `xmodem_rcv_pkt` of the serial loader. */
    method RcvPkt(port: Port) returns (ret: int)
      requires Valid() && retry >= 1
      modifies this, port, pkt
      ensures var r := X.RcvPkt(old(View()), old(port.coming));
        && ret == r.ret && View() == r.rx && port.coming == r.rest && port.sent == old(port.sent) + r.sent
        && (ret > 0 ==> ret <= 1024 && pkt[3..3 + ret] == r.data)
    {
      hide X.Try, X.RcvPkt, X.After;
      ghost var r := X.RcvPkt(View(), port.coming);
      ghost var out: seq<byte> := [];
      NothingBefore(r);
      while true
        invariant retry >= 1 && port.sent == old(port.sent) + out
        invariant r == X.After(out, X.RcvPkt(View(), port.coming))
        decreases |port.coming|, retry
      {
        ghost var rx, s := View(), port.coming;
        CallUnfolds(rx, s, out);
        port.Send([sync]);
        out := out + [sync];
        var verdict := TryOctets(port);
        match verdict
        case Done =>
          port.Send([X.ACK, X.ACK]);
          return 0;
        case Block(cnt) =>
          return cnt;
        case Again =>
        case Retry =>
          retry := retry - 1;
          if retry == 0 {
            port.Send([X.CAN, X.CAN, X.CAN]);
            return -1;
          }
      }
    }

    /** `usb_xmodem_rcv_pkt`: the same results, blocks, answers and retries, and the same line left, except
        that what was read together with the end of the transmission, at most 127 octets, is dropped. */
    method UsbRcvPkt(port: Port) returns (ret: int)
      requires Valid() && retry >= 1
      modifies this, port, pkt
      ensures var r := X.RcvPkt(old(View()), old(port.coming));
        && ret == r.ret && View() == r.rx && port.sent == old(port.sent) + r.sent
        && (if ret != 0 then port.coming == r.rest else DropsChunk(r.rest, port.coming))
        && (ret > 0 ==> ret <= 1024 && pkt[3..3 + ret] == r.data)
    {
      hide X.Try, X.RcvPkt, X.After, DropsChunk;
      ghost var r := X.RcvPkt(View(), port.coming);
      ghost var out: seq<byte> := [];
      NothingBefore(r);
      while true
        invariant retry >= 1 && port.sent == old(port.sent) + out
        invariant r == X.After(out, X.RcvPkt(View(), port.coming))
        decreases |port.coming|, retry
      {
        ghost var rx, s := View(), port.coming;
        CallUnfolds(rx, s, out);
        port.Send([sync]);
        out := out + [sync];
        var verdict := TryChunks(port);
        match verdict
        case Done =>
          port.Send([X.ACK, X.ACK]);
          return 0;
        case Block(cnt) =>
          return cnt;
        case Again =>
        case Retry =>
          retry := retry - 1;
          if retry == 0 {
            port.Send([X.CAN, X.CAN, X.CAN]);
            return -1;
          }
      }
    }
  }
}
