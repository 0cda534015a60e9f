/**
 * `bacnet_ptp_frame_send` and `bacnet_ptp_frame_recv` in the form the link runs them: an array filled
 * octet by octet, and a receive buffer that is compacted in place.
 */
module BacnetPtp {
  import opened Bytes
  import opened F = BacnetFrame
  import C = Crc

  /** One octet of the frame, escaped if need be. */
  method PutOctet(buf: array<byte>, j: nat, c: byte) returns (k: nat)
    requires j + |F.Escape(c)| <= buf.Length
    modifies buf
    ensures k <= buf.Length && buf[..k] == old(buf[..j]) + F.Escape(c)
  {
    k := j;
    if c == DLE || c == XON || c == XOFF {
      buf[k], buf[k + 1] := DLE, c + 0x80;
      k := k + 2;
      assert buf[..k] == old(buf[..j]) + [DLE, c + 0x80];
    } else {
      buf[k] := c;
      k := k + 1;
      assert buf[..k] == old(buf[..j]) + [c];
    }
  }

  lemma StuffStep(raw: seq<byte>)
    requires raw != []
    ensures F.Stuff(raw) == F.Escape(raw[0]) + F.Stuff(raw[1..])
  {
  }

  lemma {:induction false} StuffConcat(a: seq<byte>, b: seq<byte>)
    ensures F.Stuff(a + b) == F.Stuff(a) + F.Stuff(b)
  {
    hide F.Stuff, F.Escape;
    if a == [] {
      assert a + b == b;
      StuffNothing();
      assert [] + F.Stuff(b) == F.Stuff(b);
    } else {
      StuffStep(a);
      StuffStep(a + b);
      StuffConcat(a[1..], b);
      assert (a + b)[0] == a[0] && (a + b)[1..] == a[1..] + b;
      var e, x, y := F.Escape(a[0]), F.Stuff(a[1..]), F.Stuff(b);
      assert F.Stuff(a + b) == e + (x + y);
      assert e + (x + y) == (e + x) + y;
    }
  }

  lemma StuffOne(c: byte)
    ensures F.Stuff([c]) == F.Escape(c)
  {
    assert [c][1..] == [] && F.Escape(c) + [] == F.Escape(c);
  }

  /** The next octet of a message that fits in its escaped form. */
  lemma StuffNext(done: seq<byte>, octets: seq<byte>, i: nat)
    requires i < |octets|
    ensures F.Stuff(done + octets[..i + 1]) == F.Stuff(done + octets[..i]) + F.Escape(octets[i])
    ensures |F.Stuff(done + octets[..i + 1])| <= |F.Stuff(done + octets)|
  {
    StuffConcat(done + octets[..i], [octets[i]]);
    StuffOne(octets[i]);
    assert done + octets[..i + 1] == done + octets[..i] + [octets[i]];
    StuffConcat(done + octets[..i + 1], octets[i + 1..]);
    assert done + octets == done + octets[..i + 1] + octets[i + 1..];
  }

  /** Octets appended to the frame; `done` is what the array holds already, before escaping. */
  method PutOctets(buf: array<byte>, j: nat, octets: seq<byte>, ghost done: seq<byte>) returns (k: nat)
    requires j <= buf.Length && buf[..j] == F.Stuff(done) && |F.Stuff(done + octets)| <= buf.Length
    modifies buf
    ensures k <= buf.Length && buf[..k] == F.Stuff(done + octets)
  {
    hide F.Stuff;
    k := j;
    assert done + octets[..0] == done;
    for i := 0 to |octets|
      invariant k <= buf.Length && buf[..k] == F.Stuff(done + octets[..i])
    {
      StuffNext(done, octets, i);
      k := PutOctet(buf, k, octets[i]);
    }
    assert octets[..|octets|] == octets;
  }

  /** `bacnet_ptp_frame_send`: the octets handed to `serial_send`. The array has the proved size. */
  method FrameSend(typ: byte, pdu: seq<byte>) returns (sent: seq<byte>)
    requires F.Fits(F.Frame(typ, pdu)) && F.IsType(typ)
    ensures sent == F.Encode(F.Frame(typ, pdu))
  {
    hide C.HeaderCrc, C.DataCrc, F.Stuff, F.Specials;
    var len := |pdu|;
    var covered: seq<byte> := [typ, len / 256, len % 256];
    var hdr: seq<byte> := [0x55, 0xff] + covered + [C.HeaderCrc(covered)];
    var buf := new byte[11 + 2 * len](_ => 0);
    ghost var f := F.Frame(typ, pdu);
    F.EncodedFrame(f);
    StuffNothing();
    assert [] + hdr == hdr;
    if len > 0 {
      var crc := C.DataCrc(pdu);
      var chk: seq<byte> := [crc % 256, crc / 256];
      assert hdr + pdu + chk == F.Raw(f);
      StuffConcat(hdr, pdu);
      StuffConcat(hdr + pdu, chk);
      var cnt := PutOctets(buf, 0, hdr, []);
      cnt := PutOctets(buf, cnt, pdu, hdr);
      cnt := PutOctets(buf, cnt, chk, hdr + pdu);
      sent := buf[..cnt];
    } else {
      assert hdr + [] == hdr == F.Raw(f);
      var cnt := PutOctets(buf, 0, hdr, []);
      sent := buf[..cnt];
    }
  }

  lemma StuffNothing()
    ensures F.Stuff([]) == []
  {
  }

  // ---------------------------------------------------------------- the receiver

  lemma DestuffOne(dle: bool, c: byte)
    ensures F.Destuff(dle, [c]) == if dle then ([c % 0x80], false) else if c == DLE then ([], true) else ([c], false)
  {
    assert [c][1..] == [];
    assert F.Destuff(false, []) == ([], false) && F.Destuff(true, []) == ([], true);
    assert [c] + [] == [c] && [c % 0x80] + [] == [c % 0x80];
  }

  lemma DestuffSnoc(dle: bool, s: seq<byte>, c: byte)
    ensures var (out, d) := F.Destuff(dle, s);
      F.Destuff(dle, s + [c]) ==
        if d then (out + [c % 0x80], false)
        else if c == DLE then (out, true)
        else (out + [c], false)
  {
    hide F.Destuff;
    F.DestuffConcat(dle, s, [c]);
    var t := F.Destuff(dle, s);
    DestuffOne(t.1, c);
    assert t.0 + [] == t.0;
  }

  lemma DestuffNothing(dle: bool)
    ensures F.Destuff(dle, []) == ([], dle)
  {
  }

  /** b is a with the octets of out laid over it at `at`. */
  predicate Overlaid(a: seq<byte>, b: seq<byte>, at: nat, out: seq<byte>) {
    |a| == |b| && at + |out| <= |a| &&
    forall k :: 0 <= k < |a| ==> b[k] == if at <= k < at + |out| then out[k - at] else a[k]
  }

  lemma MovedParts(a: seq<byte>, b: seq<byte>, off: nat, n: nat)
    requires |a| == |b| && off + n <= |a|
    requires forall k :: 0 <= k < n ==> b[k] == a[off + k]
    requires forall k :: n <= k < |a| ==> b[k] == a[k]
    ensures b == a[off..off + n] + a[n..]
  {
  }

  /** The octets read, and over them what is left of them without escapes. */
  lemma TwoOverlays(a: seq<byte>, b: seq<byte>, c: seq<byte>, at: nat, chunk: seq<byte>, out: seq<byte>)
    requires Overlaid(a, b, at, chunk) && Overlaid(b, c, at, out) && |out| <= |chunk|
    ensures c == a[..at] + out + chunk[|out|..] + a[at + |chunk|..]
  {
  }

  class PtpReceiver {
    const buf: array<byte>
    var off: nat
    var cnt: nat
    var dle: bool
    var pduLen: nat
    // the serial device: octets on their way, and what the next reads would deliver at most
    var wire: seq<byte>
    var sizes: seq<int>

    ghost predicate Valid()
      reads this
    {
      buf.Length == F.MTU && cnt <= F.MTU
    }

    ghost function View(): (s: F.Rx)
      requires Valid()
      reads this, buf
      ensures F.RxOk(s)
    {
      F.Rx(buf[..], cnt, dle, wire, sizes)
    }

    /** `serial_recv` into the room behind the fill level. */
    method SerialRecv() returns (n: int)
      requires Valid()
      modifies this`wire, this`sizes, buf
      ensures n == F.ReadLen(old(View()))
      ensures sizes == F.Quiet(old(View())).sizes
      ensures n <= 0 ==> wire == old(wire) && buf[..] == old(buf[..])
      ensures n > 0 ==> old(sizes) != [] && wire == old(wire)[n..]
      ensures n > 0 ==> Overlaid(old(buf[..]), buf[..], cnt, old(wire)[..n])
    {
      n := 0;
      if sizes != [] {
        n := if sizes[0] <= 0 then sizes[0] else Min(Min(sizes[0], F.MTU - cnt), |wire|);
        sizes := sizes[1..];
      }
      if n > 0 {
        forall k | cnt <= k < cnt + n { buf[k] := wire[k - cnt]; }
        wire := wire[n..];
      }
    }

    /** The escapes of the n octets behind the fill level are taken out in place. */
    method DestuffInPlace(n: nat) returns (j: nat)
      requires Valid() && cnt + n <= F.MTU
      modifies this`dle, buf
      ensures var chunk := old(buf[cnt..cnt + n]);
        && j == |F.Destuff(old(dle), chunk).0| && dle == F.Destuff(old(dle), chunk).1
        && Overlaid(old(buf[..]), buf[..], cnt, F.Destuff(old(dle), chunk).0)
    {
      hide F.Destuff;
      ghost var chunk := buf[cnt..cnt + n];
      DestuffNothing(dle);
      ghost var out: seq<byte> := [];
      j := 0;
      for i := 0 to n
        invariant j == |out| <= i && (out, dle) == F.Destuff(old(dle), chunk[..i])
        invariant forall k :: cnt <= k < cnt + j ==> buf[k] == out[k - cnt]
        invariant forall k :: 0 <= k < cnt || cnt + j <= k < F.MTU ==> buf[k] == old(buf[k])
      {
        DestuffSnoc(old(dle), chunk[..i], chunk[i]);
        assert chunk[..i + 1] == chunk[..i] + [chunk[i]];
        var c := buf[cnt + i];
        if dle {
          c := c % 0x80;
          dle := false;
        } else if c == DLE {
          dle := true;
          continue;
        }
        buf[cnt + j] := c;
        j := j + 1;
        out := out + [c];
      }
      assert chunk[..n] == chunk;
    }

    /** One turn of either receive loop. */
    method ReadSome() returns (n: int)
      requires Valid()
      modifies this`wire, this`sizes, this`dle, this`cnt, buf
      ensures Valid() && n == F.ReadLen(old(View()))
      ensures View() == if n <= 0 then F.Quiet(old(View())) else F.Take(old(View()), n)
    {
      hide F.Destuff, F.Take, Overlaid;
      ghost var s := View();
      n := SerialRecv();
      if n <= 0 { return; }
      ghost var mid := buf[..];
      ReadPart(s, mid, n);
      assert buf[cnt..cnt + n] == mid[cnt..cnt + n];
      var j := DestuffInPlace(n);
      cnt := cnt + j;
      TakeInTwo(s, n, mid, buf[..]);
    }

    method FillTo(need: nat) returns (n: int)
      requires Valid()
      modifies this`wire, this`sizes, this`dle, this`cnt, buf
      ensures Valid()
      ensures F.Fill(old(View()), need) == if n > 0 then F.Full(View()) else F.Silence(n, View())
    {
      hide F.Take, F.ReadLen, F.Quiet;
      n := 1;
      while cnt < need
        invariant Valid() && F.Fill(View(), need) == F.Fill(old(View()), need) && n > 0
        decreases |sizes|
      {
        ReadShortens(View());
        n := ReadSome();
        if n <= 0 { return; }
      }
    }

    /** Move what is left of the buffer to its front. */
    method ShiftDown()
      requires Valid() && off <= cnt
      modifies this`cnt, buf
      ensures Valid() && View() == F.Shift(old(View()), off)
    {
      if off != 0 {
        ghost var was := buf[..];
        cnt := cnt - off;
        forall k | 0 <= k < cnt { buf[k] := buf[off + k]; }
        MovedParts(was, buf[..], off, cnt);
      } else {
        cnt := 0;
      }
    }

    /** The first loop of `bacnet_ptp_frame_recv`. */
    method FindHeader() returns (n: int)
      requires Valid() && off <= cnt
      modifies this`wire, this`sizes, this`dle, this`cnt, this`off, buf
      ensures Valid()
      ensures F.FindHeader(old(View()), old(off)) == if n > 0 then F.Full(View()) else F.Silence(n, View())
    {
      hide F.Fill, F.Shift, C.HeaderCrc;
      while true
        invariant Valid() && off <= cnt
        invariant F.FindHeader(View(), off) == F.FindHeader(old(View()), old(off))
        decreases |sizes|, cnt
      {
        F.SearchGoesOn(View(), off);
        ShiftDown();
        off := 0;
        n := FillTo(5);
        if n <= 0 { return; }
        if buf[0] != 0x55 {
          off := 1;
        } else if buf[1] != 0xff {
          off := 2;
        } else if buf[5] != C.HeaderCrc(buf[2..5]) {
          off := 3;
        } else {
          return;
        }
        assert buf[..][2..5] == buf[2..5];
        assert F.HeaderError(View().mem) == off;
      }
    }

    /** `bacnet_ptp_frame_recv`: the type of the frame, or what `serial_recv` or the data check said.
        The PDU is in the buffer behind the header. It cannot start, and is not `ok`, when the call before it
        has left an offset behind what is buffered: the count of what is to be moved is negative then. */
    method FrameRecv() returns (ok: bool, ret: int)
      requires Valid()
      modifies this, buf
      ensures Valid() && ok == (old(off) <= old(cnt))
      ensures !ok ==> View() == old(View()) && off == old(off)
      ensures ok ==> match F.Recv(old(View()), old(off))
        case Got(f, o, s) =>
          && ret == f.typ && pduLen == |f.pdu| <= F.MTU - 6 && buf[6..6 + pduLen] == f.pdu
          && off == o && View() == s
        case Reset(n, s) => ret == n && off == 0 && View() == s.(cnt := 0, dle := false)
      ensures ok ==> (off <= cnt <==> !(F.Recv(old(View()), old(off)).Got? && pduLen == 0 && cnt == 5))
    {
      hide F.Fill, F.FindHeader, C.HeaderCrc, C.DataCrc;
      ok := off <= cnt;
      if !ok { return false, 0; }
      F.NextCallCanStart(View(), off);
      var n := FindHeader();
      if n <= 0 {
        off, cnt, dle := 0, 0, false;
        return ok, n;
      }
      var len := Word(buf[3], buf[4]);
      if len > 0 {
        n := FillTo(len + 8);
        if n <= 0 {
          off, cnt, dle := 0, 0, false;
          return ok, n;
        }
        var chk := Word(buf[len + 7], buf[len + 6]);
        assert buf[..][6..6 + len] == buf[6..6 + len];
        if C.DataCrc(buf[6..6 + len]) != chk {
          off, cnt, dle := 0, 0, false;
          return ok, -1;
        }
        pduLen := len;
        off := len + 8;
      } else {
        pduLen := 0;
        off := 6;
      }
      ret := buf[2];
    }
  }

  lemma ReadPart(s: F.Rx, mid: seq<byte>, n: nat)
    requires F.RxOk(s) && s.cnt + n <= F.MTU && n <= |s.wire| && Overlaid(s.mem, mid, s.cnt, s.wire[..n])
    ensures |mid| == F.MTU && mid[s.cnt..s.cnt + n] == s.wire[..n]
    ensures s.cnt + |F.Destuff(s.dle, s.wire[..n]).0| <= F.MTU
  {
    DestuffShrinks(s.dle, s.wire[..n]);
  }

  /** Reading and compacting in place is what Take says. */
  lemma TakeInTwo(s: F.Rx, n: nat, mid: seq<byte>, now: seq<byte>)
    requires F.RxOk(s) && 0 < n <= F.MTU - s.cnt && n <= |s.wire| && s.sizes != []
    requires Overlaid(s.mem, mid, s.cnt, s.wire[..n])
    requires Overlaid(mid, now, s.cnt, F.Destuff(s.dle, s.wire[..n]).0)
    ensures var r := F.Destuff(s.dle, s.wire[..n]);
      F.Take(s, n) == F.Rx(now, s.cnt + |r.0|, r.1, s.wire[n..], s.sizes[1..])
  {
    hide F.Destuff, Overlaid;
    DestuffShrinks(s.dle, s.wire[..n]);
    var out := F.Destuff(s.dle, s.wire[..n]).0;
    TwoOverlays(s.mem, mid, now, s.cnt, s.wire[..n], out);
    assert s.wire[..n][|out|..] == s.wire[|out|..n];
  }

  lemma DestuffShrinks(dle: bool, s: seq<byte>)
    ensures |F.Destuff(dle, s).0| <= |s|
  {
  }

  lemma ReadShortens(s: F.Rx)
    requires F.RxOk(s)
    ensures F.ReadLen(s) > 0 ==> |F.Take(s, F.ReadLen(s)).sizes| < |s.sizes|
  {
  }
}
