/**
 * Frames on the BACnet point-to-point link (10.3 and Annex G of ANSI/ASHRAE 135): preamble, header
 * with its check, data with its check, and the escaping of flow-control octets; `bacnet_ptp_frame_send`
 * and `bacnet_ptp_frame_recv`.
 */
module BacnetFrame {
  import opened Bytes
  import C = Crc

  const MTU := 512

  // ---------------------------------------------------------------- escaping

  function Escape(c: byte): seq<byte> {
    if Special(c) then [DLE, c + 0x80] else [c]
  }

  function Stuff(raw: seq<byte>): (s: seq<byte>) {
    if raw == [] then [] else Escape(raw[0]) + Stuff(raw[1..])
  }

  function Specials(raw: seq<byte>): (n: nat)
    ensures n <= |raw|
  {
    if raw == [] then 0 else (if Special(raw[0]) then 1 else 0) + Specials(raw[1..])
  }

  /** The octets that come out, and whether an escape is open at the end. */
  function Destuff(dle: bool, s: seq<byte>): (r: (seq<byte>, bool))
    ensures |r.0| <= |s|
    decreases |s|
  {
    if s == [] then ([], dle)
    else if dle then var t := Destuff(false, s[1..]); ([s[0] % 0x80] + t.0, t.1)
    else if s[0] == DLE then Destuff(true, s[1..])
    else var t := Destuff(false, s[1..]); ([s[0]] + t.0, t.1)
  }

  lemma {:induction false} DestuffConcat(dle: bool, a: seq<byte>, b: seq<byte>)
    ensures Destuff(dle, a + b).0 == Destuff(dle, a).0 + Destuff(Destuff(dle, a).1, b).0
    ensures Destuff(dle, a + b).1 == Destuff(Destuff(dle, a).1, b).1
    decreases |a|
  {
    if a == [] {
      assert a + b == b;
    } else {
      assert (a + b)[0] == a[0] && (a + b)[1..] == a[1..] + b;
      DestuffConcat(!dle && a[0] == DLE, a[1..], b);
    }
  }

  lemma DestuffEscape(c: byte)
    ensures Destuff(false, Escape(c)) == ([c], false)
  {
    assert Destuff(false, []) == ([], false) && [c] + [] == [c];
    if Special(c) {
      assert [DLE, c + 0x80][1..] == [c + 0x80];
      assert [c + 0x80][1..] == [];
      assert Destuff(true, [c + 0x80]) == ([c], false);
    } else {
      assert [c][1..] == [];
    }
  }

  lemma {:induction false} DestuffStuff(raw: seq<byte>)
    ensures Destuff(false, Stuff(raw)) == (raw, false)
  {
    if raw != [] {
      DestuffStuff(raw[1..]);
      DestuffEscape(raw[0]);
      DestuffConcat(false, Escape(raw[0]), Stuff(raw[1..]));
      assert [raw[0]] + raw[1..] == raw;
    }
  }

  /** Flow control cannot be mistaken for data. */
  lemma {:induction false} StuffedIsClean(raw: seq<byte>)
    ensures XON !in Stuff(raw) && XOFF !in Stuff(raw)
    ensures |Stuff(raw)| == |raw| + Specials(raw)
  {
    if raw != [] { StuffedIsClean(raw[1..]); }
  }

  // ---------------------------------------------------------------- frames

  datatype Frame = Frame(typ: byte, pdu: seq<byte>)

  /** The frame types of the link. */
  predicate IsType(typ: byte) {
    typ <= 0x0f || typ == 0x14 || typ == 0x15
  }

  predicate Fits(f: Frame) {
    |f.pdu| + 8 <= MTU
  }

  function Header(f: Frame): seq<byte>
    requires Fits(f)
  {
    [f.typ, |f.pdu| / 256, |f.pdu| % 256]
  }

  /** A frame before escaping; a 16-bit check goes low octet first. */
  function Raw(f: Frame): (raw: seq<byte>)
    requires Fits(f)
    ensures |raw| == if f.pdu == [] then 6 else |f.pdu| + 8
  {
    [0x55, 0xff] + Header(f) + [C.HeaderCrc(Header(f))] +
    if f.pdu == [] then [] else f.pdu + [C.DataCrc(f.pdu) % 256, C.DataCrc(f.pdu) / 256]
  }

  function Encode(f: Frame): seq<byte>
    requires Fits(f)
  {
    Stuff(Raw(f))
  }

  lemma {:induction false} SpecialsConcat(a: seq<byte>, b: seq<byte>)
    ensures Specials(a + b) == Specials(a) + Specials(b)
  {
    if a == [] {
      assert a + b == b;
    } else {
      assert (a + b)[0] == a[0] && (a + b)[1..] == a[1..] + b;
      SpecialsConcat(a[1..], b);
    }
  }

  function Mark(c: byte): nat {
    if Special(c) then 1 else 0
  }

  lemma SpecialsOfTwo(a: byte, b: byte)
    ensures Specials([a, b]) == Mark(a) + Mark(b)
  {
    assert [a, b][1..] == [b];
  }

  lemma SpecialsOfThree(a: byte, b: byte, c: byte)
    ensures Specials([a, b, c]) == Mark(a) + Mark(b) + Mark(c)
  {
    assert [a, b, c][1..] == [b, c];
    SpecialsOfTwo(b, c);
  }

  /** In the header at most one octet is escaped: the low octet of the length, or the check. */
  lemma HeaderSpecials(f: Frame)
    requires Fits(f) && IsType(f.typ)
    ensures Specials(Header(f)) == Mark(|f.pdu| % 256)
    ensures Specials([0x55, 0xff] + Header(f) + [C.HeaderCrc(Header(f))]) ==
      Mark(|f.pdu| % 256) + Mark(C.HeaderCrc(Header(f))) <= 1
  {
    hide C.HeaderCrc, Specials;
    var h := Header(f);
    SpecialsOfThree(f.typ, |f.pdu| / 256, |f.pdu| % 256);
    SpecialsConcat([0x55, 0xff] + h, [C.HeaderCrc(h)]);
    SpecialsConcat([0x55, 0xff], h);
    SpecialsOfTwo(0x55, 0xff);
    SpecialsOfOne(C.HeaderCrc(h));
    if Special(|f.pdu| % 256) { C.LengthOrCheckEscaped(f.typ, |f.pdu| / 256, |f.pdu| % 256); }
  }

  lemma SpecialsOfOne(a: byte)
    ensures Specials([a]) == Mark(a)
  {
    assert [a][1..] == [];
  }

  lemma RawSpecials(f: Frame)
    requires Fits(f) && IsType(f.typ)
    ensures Specials(Raw(f)) == Mark(|f.pdu| % 256) + Mark(C.HeaderCrc(Header(f))) +
      if f.pdu == [] then 0 else Specials(f.pdu) + Mark(C.DataCrc(f.pdu) % 256) + Mark(C.DataCrc(f.pdu) / 256)
  {
    hide C.HeaderCrc, C.DataCrc, Specials, Header;
    HeaderSpecials(f);
    var head := [0x55, 0xff] + Header(f) + [C.HeaderCrc(Header(f))];
    if f.pdu == [] {
      assert head + [] == head;
    } else {
      var low: byte, high: byte := C.DataCrc(f.pdu) % 256, C.DataCrc(f.pdu) / 256;
      SpecialsConcat(head, f.pdu + [low, high]);
      SpecialsConcat(f.pdu, [low, high]);
      SpecialsOfTwo(low, high);
    }
  }

  /** No flow-control octet on the wire, and at most 11 + 2n octets for n octets of data. The array in
      which the original assembles the frame has 9 + 2n: it holds a frame without data always, and any other
      exactly if at most n + 1 of its octets are escaped. */
  lemma EncodedFrame(f: Frame)
    requires Fits(f) && IsType(f.typ)
    ensures XON !in Encode(f) && XOFF !in Encode(f)
    ensures |Encode(f)| <= if f.pdu == [] then 7 else 11 + 2 * |f.pdu|
    ensures |Encode(f)| <= 9 + 2 * |f.pdu| <==> f.pdu == [] || Specials(Raw(f)) <= |f.pdu| + 1
  {
    hide C.HeaderCrc, C.DataCrc, Specials, Stuff, Header;
    StuffedIsClean(Raw(f));
    HeaderSpecials(f);
    RawSpecials(f);
    SpecialsBounded(f.pdu);
  }

  lemma SpecialsBounded(s: seq<byte>)
    ensures Specials(s) <= |s|
  {
  }

  lemma AllSpecial()
    ensures Specials(C.ESCAPED) == 16
  {
    SpecialsAre(C.ESCAPED);
  }

  lemma {:induction false} SpecialsAre(s: seq<byte>)
    requires forall i :: 0 <= i < |s| ==> Special(s[i])
    ensures Specials(s) == |s|
  {
    if s != [] { SpecialsAre(s[1..]); }
  }

  /** The bound is attained, and two octets more than the array holds: 43 octets for 16 octets of data. */
  lemma FrameOverflows(typ: byte)
    requires IsType(typ)
    ensures var f := Frame(typ, C.ESCAPED); Fits(f) && |Encode(f)| == 11 + 2 * |f.pdu| > 9 + 2 * |f.pdu|
  {
    hide C.HeaderCrc, C.DataCrc, Specials, Stuff, Header;
    var f := Frame(typ, C.ESCAPED);
    C.EscapedCheck();
    StuffedIsClean(Raw(f));
    HeaderSpecials(f);
    RawSpecials(f);
    AllSpecial();
  }

  // ---------------------------------------------------------------- the receiver

  /** The receive buffer with its fill level, the state of the escape, the octets still on the wire, and
      how many of them each future read would deliver at most (zero or less: silence). */
  datatype Rx = Rx(mem: seq<byte>, cnt: nat, dle: bool, wire: seq<byte>, sizes: seq<int>)

  predicate RxOk(s: Rx) {
    |s.mem| == MTU && s.cnt <= MTU
  }

  /** What `serial_recv` returns for the room behind the fill level. */
  function ReadLen(s: Rx): (n: int)
    requires RxOk(s)
    ensures n <= MTU - s.cnt && n <= |s.wire|
  {
    if s.sizes == [] then 0 else if s.sizes[0] <= 0 then s.sizes[0] else Min(Min(s.sizes[0], MTU - s.cnt), |s.wire|)
  }

  /** One read of n octets, escapes taken out in place: the tail of the read stays behind the new level. */
  function Take(s: Rx, n: int): (t: Rx)
    requires RxOk(s) && n <= MTU - s.cnt && n <= |s.wire| && s.sizes != [] && n > 0
    ensures RxOk(t)
  {
    var (out, dle) := Destuff(s.dle, s.wire[..n]);
    Rx(s.mem[..s.cnt] + out + s.wire[|out|..n] + s.mem[s.cnt + n..], s.cnt + |out|, dle, s.wire[n..], s.sizes[1..])
  }

  /** A read that delivers nothing. */
  function Quiet(s: Rx): Rx {
    s.(sizes := if s.sizes == [] then [] else s.sizes[1..])
  }

  datatype Filled = Full(s: Rx) | Silence(n: int, s: Rx)

  /** Read on until there are `need` octets. */
  function Fill(s: Rx, need: nat): (r: Filled)
    requires RxOk(s)
    ensures RxOk(r.s) && (r.Full? ==> r.s.cnt >= need)
    ensures r.Full? ==> |r.s.sizes| < |s.sizes| || r.s == s
    decreases |s.sizes|
  {
    if s.cnt >= need then Full(s)
    else
      var n := ReadLen(s);
      if n <= 0 then Silence(n, Quiet(s)) else Fill(Take(s, n), need)
  }

  /** Move what is left of the buffer to its front; with no offset nothing is left. */
  function Shift(s: Rx, off: nat): (t: Rx)
    requires RxOk(s) && off <= s.cnt
    ensures RxOk(t)
  {
    if off == 0 then s.(cnt := 0)
    else s.(mem := s.mem[off..s.cnt] + s.mem[s.cnt - off..], cnt := s.cnt - off)
  }

  /** How far to skip after a look at the first six octets of the buffer; 0 if they are a header. */
  function HeaderError(mem: seq<byte>): nat
    requires |mem| == MTU
  {
    if mem[0] != 0x55 then 1
    else if mem[1] != 0xff then 2
    else if mem[5] != C.HeaderCrc(mem[2..5]) then 3
    else 0
  }

  function FindHeader(s: Rx, off: nat): (r: Filled)
    requires RxOk(s) && off <= s.cnt
    ensures RxOk(r.s)
    ensures r.Full? ==> r.s.cnt >= 5 && HeaderError(r.s.mem) == 0
    decreases |s.sizes|, s.cnt
  {
    var t := Shift(s, off);
    match Fill(t, 5)
    case Silence(n, u) => Silence(n, u)
    case Full(u) =>
      var e := HeaderError(u.mem);
      if e == 0 then Full(u) else FindHeader(u, e)
  }

  function DataLen(mem: seq<byte>): nat
    requires |mem| == MTU
  {
    Word(mem[3], mem[4])
  }

  /** The outcome of one call: a frame and the offset of what follows it, or a negative or zero return
      after which the receiver starts afresh. */
  datatype Outcome = Got(frame: Frame, off: nat, s: Rx) | Reset(ret: int, s: Rx)

  function Recv(s: Rx, off: nat): (r: Outcome)
    requires RxOk(s) && off <= s.cnt
    ensures RxOk(r.s)
  {
    match FindHeader(s, off)
    case Silence(n, u) => Reset(n, u)
    case Full(u) =>
      var len := DataLen(u.mem);
      if len == 0 then Got(Frame(u.mem[2], []), 6, u)
      else
        match Fill(u, len + 8)
        case Silence(n, v) => Reset(n, v)
        case Full(v) =>
          if Word(v.mem[len + 7], v.mem[len + 6]) != C.DataCrc(v.mem[6..6 + len]) then Reset(-1, v)
          else Got(Frame(v.mem[2], v.mem[6..6 + len]), len + 8, v)
  }

  // ---------------------------------------------------------------- every chunking gives the frame

  /** The octets that are in the buffer or will come out of the wire. */
  function Ahead(s: Rx): seq<byte>
    requires RxOk(s)
  {
    s.mem[..s.cnt] + Destuff(s.dle, s.wire).0
  }

  /** No silence before the wire is empty, however few octets a read delivers. */
  predicate Prompt(s: Rx) {
    |s.sizes| >= |s.wire| && forall i :: 0 <= i < |s.sizes| ==> s.sizes[i] > 0
  }

  lemma TakeKeepsAhead(s: Rx, n: int)
    requires RxOk(s) && 0 < n <= MTU - s.cnt && n <= |s.wire| && s.sizes != []
    ensures Ahead(Take(s, n)) == Ahead(s) && Take(s, n).cnt >= s.cnt
    ensures Prompt(s) ==> Prompt(Take(s, n))
  {
    hide Destuff;
    var t := Take(s, n);
    DestuffConcat(s.dle, s.wire[..n], s.wire[n..]);
    assert s.wire == s.wire[..n] + s.wire[n..];
    var out := Destuff(s.dle, s.wire[..n]).0;
    assert t.mem[..t.cnt] == s.mem[..s.cnt] + out;
  }

  /** With enough octets ahead the fill succeeds, and what is ahead stays the same. */
  lemma {:induction false} FillSucceeds(s: Rx, need: nat)
    requires RxOk(s) && Prompt(s) && need <= MTU && |Ahead(s)| >= need
    ensures Fill(s, need).Full?
    ensures var t := Fill(s, need).s; Ahead(t) == Ahead(s) && Prompt(t) && t.cnt >= need
    decreases |s.sizes|
  {
    if s.cnt < need {
      assert s.wire != [];
      var n := ReadLen(s);
      TakeKeepsAhead(s, n);
      FillSucceeds(Take(s, n), need);
    }
  }

  lemma ShiftLeavesRest(s: Rx, off: nat)
    requires RxOk(s) && 0 < off <= s.cnt
    ensures Ahead(Shift(s, off)) == Ahead(s)[off..]
  {
    var t := Shift(s, off);
    assert t.mem[..t.cnt] == s.mem[off..s.cnt];
  }

  /** The buffer when the header is first looked at. */
  function AtHeader(s: Rx, off: nat): (r: Filled)
    requires RxOk(s) && off <= s.cnt
    ensures RxOk(r.s)
  {
    Fill(Shift(s, off), 5)
  }

  /** The octets begin with the preamble, the header of the frame and its check. */
  predicate HeadedBy(r: seq<byte>, f: Frame)
    requires Fits(f)
  {
    |r| >= 6 && r[..5] == [0x55, 0xff, f.typ, |f.pdu| / 256, |f.pdu| % 256] && r[5] == C.HeaderCrc(Header(f))
  }

  lemma RawAt(f: Frame, rest: seq<byte>)
    requires Fits(f)
    ensures var r := Raw(f) + rest;
      && HeadedBy(r, f)
      && (f.pdu != [] ==>
            && |r| >= |f.pdu| + 8 && r[6..6 + |f.pdu|] == f.pdu && r[|f.pdu| + 8..] == rest
            && r[|f.pdu| + 6] == C.DataCrc(f.pdu) % 256 && r[|f.pdu| + 7] == C.DataCrc(f.pdu) / 256)
  {
    hide C.HeaderCrc, C.DataCrc;
  }

  /** The header of a frame is accepted exactly if its check octet is there, or happens to be what the
      buffer held in its place. */
  lemma HeaderAccepted(mem: seq<byte>, cnt: nat, f: Frame, r: seq<byte>, tail: seq<byte>)
    requires |mem| == MTU && Fits(f) && 5 <= cnt <= MTU && mem[..cnt] + tail == r && HeadedBy(r, f)
    ensures HeaderError(mem) == 0 <==> cnt >= 6 || mem[5] == C.HeaderCrc(Header(f))
    ensures HeaderError(mem) == 0 || HeaderError(mem) == 3
    ensures mem[2] == f.typ && DataLen(mem) == |f.pdu|
  {
    hide C.HeaderCrc, C.DataCrc;
    assert forall i :: 0 <= i < 5 ==> mem[i] == r[..5][i];
    assert mem[2..5] == Header(f);
    if cnt >= 6 { assert mem[5] == r[5]; }
  }

  // ---- what a call uses up

  lemma {:induction false} FillKeepsAhead(s: Rx, need: nat)
    requires RxOk(s)
    ensures Ahead(Fill(s, need).s) == Ahead(s) && Fill(s, need).s.cnt >= s.cnt
    ensures Prompt(s) && Fill(s, need).Full? ==> Prompt(Fill(s, need).s)
    decreases |s.sizes|
  {
    hide Ahead;
    var n := ReadLen(s);
    if s.cnt < need {
      if n > 0 {
        TakeKeepsAhead(s, n);
        FillKeepsAhead(Take(s, n), need);
      } else {
        QuietKeepsAhead(s);
      }
    }
  }

  lemma QuietKeepsAhead(s: Rx)
    requires RxOk(s)
    ensures Ahead(Quiet(s)) == Ahead(s)
  {
  }

  /** What is ahead after a shift. */
  lemma ShiftShortens(s: Rx, off: nat)
    requires RxOk(s) && off <= s.cnt
    ensures off > 0 ==> |Ahead(Shift(s, off))| == |Ahead(s)| - off
    ensures |Ahead(s)| >= s.cnt
  {
    if off > 0 { ShiftLeavesRest(s, off); }
  }

  /** The search for a header gives octets up and never makes any. */
  lemma {:induction false} SearchShortens(s: Rx, off: nat)
    requires RxOk(s) && off <= s.cnt
    ensures |Ahead(FindHeader(s, off).s)| <= |Ahead(Shift(s, off))|
    decreases |s.sizes|, s.cnt
  {
    hide Ahead, HeaderError, Shift;
    var t := Shift(s, off);
    FillKeepsAhead(t, 5);
    SearchGoesOn(s, off);
    match Fill(t, 5)
    case Silence(n, u) =>
    case Full(u) =>
      var e := HeaderError(u.mem);
      if e != 0 {
        ErrorSkips(u.mem);
        ShiftShortens(u, e);
        SearchShortens(u, e);
      }
  }

  lemma ErrorSkips(mem: seq<byte>)
    requires |mem| == MTU
    ensures HeaderError(mem) <= 3
  {
    hide C.HeaderCrc;
  }

  /** The measure of the search: a turn that reads nothing has fewer octets left than the one before. */
  lemma SearchGoesOn(s: Rx, off: nat)
    requires RxOk(s) && off <= s.cnt
    ensures var r := Fill(Shift(s, off), 5);
      r.Full? ==> |r.s.sizes| < |s.sizes| || (|r.s.sizes| == |s.sizes| && r.s.cnt < s.cnt && off > 0)
  {
    hide Take, Quiet, ReadLen;
  }

  /** The octets of a frame before escaping. */
  function Len(f: Frame): nat {
    if f.pdu == [] then 6 else |f.pdu| + 8
  }

  /** A call that returns a frame leaves in front of the buffer exactly that frame. */
  lemma RecvUses(s: Rx, off: nat)
    requires RxOk(s) && off <= s.cnt
    ensures var r := Recv(s, off);
      r.Got? ==>
        && r.off == Len(r.frame) && |Ahead(r.s)| <= |Ahead(Shift(s, off))|
        && (r.off <= r.s.cnt ==> |Ahead(Shift(r.s, r.off))| == |Ahead(r.s)| - r.off)
        && |Ahead(r.s)| >= r.s.cnt && Len(r.frame) <= r.s.cnt + 1
  {
    hide C.HeaderCrc, C.DataCrc, HeaderError, Ahead, Shift, FindHeader;
    HeaderThere(s, off);
    SearchShortens(s, off);
    var h := FindHeader(s, off);
    if h.Full? {
      FillKeepsAhead(h.s, DataLen(h.s.mem) + 8);
      var r := Recv(s, off);
      if r.Got? {
        ShiftShortens(r.s, 0);
        if r.off <= r.s.cnt { ShiftShortens(r.s, r.off); }
      }
    }
  }

  lemma HeaderThere(s: Rx, off: nat)
    requires RxOk(s) && off <= s.cnt
    ensures FindHeader(s, off).Full? ==> FindHeader(s, off).s.cnt >= 5
    ensures RxOk(FindHeader(s, off).s)
  {
  }

  /** What the data of the frame is taken from. */
  lemma DataReturned(u: Rx, f: Frame, r: seq<byte>)
    requires RxOk(u) && Prompt(u) && Fits(f) && Ahead(u) == r && |r| >= |f.pdu| + 8 && HeadedBy(r, f)
    ensures var len := |f.pdu|; var v := Fill(u, len + 8);
      && v.Full? && Prompt(v.s) && v.s.mem[2] == f.typ && v.s.mem[6..6 + len] == r[6..6 + len]
      && v.s.mem[len + 6] == r[len + 6] && v.s.mem[len + 7] == r[len + 7]
      && Ahead(Shift(v.s, len + 8)) == r[len + 8..]
  {
    hide C.HeaderCrc, C.DataCrc, Destuff, Fill;
    var len := |f.pdu|;
    FillSucceeds(u, len + 8);
    var v := Fill(u, len + 8).s;
    assert v.mem[..v.cnt] == r[..v.cnt];
    assert forall i :: 0 <= i < len + 8 ==> v.mem[i] == r[i];
    assert v.mem[2] == r[..5][2];
    assert v.mem[6..6 + len] == r[6..6 + len];
    ShiftLeavesRest(v, len + 8);
  }

  lemma NoDataReturned(u: Rx, f: Frame, rest: seq<byte>)
    requires RxOk(u) && Prompt(u) && Fits(f) && f.pdu == [] && Ahead(u) == Raw(f) + rest && u.cnt >= 6
    ensures Ahead(Shift(u, 6)) == rest
  {
    hide C.HeaderCrc, C.DataCrc;
    ShiftLeavesRest(u, 6);
    assert (Raw(f) + rest)[6..] == rest;
  }

  /** The frame that comes next is the one that the call returns; nothing in front of it is dropped. */
  predicate Returned(r: Outcome, f: Frame, ahead: seq<byte>)
    requires RxOk(r.s)
  {
    r.Got? && r.frame == f && Ahead(r.s) == ahead
  }

  /** And the octets behind it are there for the next call. */
  predicate LeavesRest(r: Outcome, rest: seq<byte>)
    requires RxOk(r.s)
  {
    r.Got? && r.off <= r.s.cnt && Ahead(Shift(r.s, r.off)) == rest
  }

  lemma HeaderFound(s: Rx, off: nat, f: Frame, r: seq<byte>)
    requires RxOk(s) && off <= s.cnt && Prompt(s) && Fits(f) && Ahead(Shift(s, off)) == r && HeadedBy(r, f)
    requires AtHeader(s, off).s.cnt != 5 || AtHeader(s, off).s.mem[5] == C.HeaderCrc(Header(f))
    ensures var u := AtHeader(s, off).s;
      && FindHeader(s, off) == Full(u) && RxOk(u) && Prompt(u) && Ahead(u) == r && u.cnt >= 5
      && u.mem[2] == f.typ && DataLen(u.mem) == |f.pdu|
  {
    hide C.HeaderCrc, C.DataCrc, HeaderError, Header, Ahead;
    FillSucceeds(Shift(s, off), 5);
    var u := AtHeader(s, off).s;
    AheadParts(u);
    HeaderAccepted(u.mem, u.cnt, f, r, Destuff(u.dle, u.wire).0);
  }

  /** A header that stands: the call returns the frame. */
  lemma HeaderStands(s: Rx, off: nat, f: Frame, rest: seq<byte>)
    requires RxOk(s) && off <= s.cnt && Prompt(s) && Fits(f) && Ahead(Shift(s, off)) == Raw(f) + rest
    requires AtHeader(s, off).s.cnt != 5 || AtHeader(s, off).s.mem[5] == C.HeaderCrc(Header(f))
    ensures var r := Recv(s, off);
      && Returned(r, f, Raw(f) + rest) && Prompt(r.s)
      && (LeavesRest(r, rest) <==> AtHeader(s, off).s.cnt != 5 || f.pdu != [])
      && (LeavesRest(r, rest) <==> r.off <= r.s.cnt)
  {
    hide C.HeaderCrc, C.DataCrc, DataLen, FindHeader, AtHeader, Fill, Shift, Raw, Header, Ahead, Prompt, HeadedBy;
    RawAt(f, rest);
    HeaderFound(s, off, f, Raw(f) + rest);
    var u := AtHeader(s, off).s;
    if f.pdu != [] {
      FillKeepsAhead(u, |f.pdu| + 8);
      DataReturned(u, f, Raw(f) + rest);
      FilledEnough(u, |f.pdu| + 8);
    } else if u.cnt >= 6 {
      NoDataReturned(u, f, rest);
    }
  }

  lemma FilledEnough(s: Rx, need: nat)
    requires RxOk(s)
    ensures RxOk(Fill(s, need).s) && (Fill(s, need).Full? ==> Fill(s, need).s.cnt >= need)
  {
  }

  /** A header that is refused: three octets are dropped for good. */
  lemma HeaderFalls(s: Rx, off: nat, f: Frame, rest: seq<byte>)
    requires RxOk(s) && off <= s.cnt && Prompt(s) && Fits(f) && Ahead(Shift(s, off)) == Raw(f) + rest
    requires AtHeader(s, off).s.cnt == 5 && AtHeader(s, off).s.mem[5] != C.HeaderCrc(Header(f))
    ensures var u := AtHeader(s, off).s;
      && FindHeader(s, off) == FindHeader(u, 3) && |Ahead(Shift(u, 3))| == |Raw(f) + rest| - 3
  {
    hide C.HeaderCrc, C.DataCrc, HeaderError, Raw, Header, Ahead;
    var t := Shift(s, off);
    RawAt(f, rest);
    FillSucceeds(t, 5);
    var u := Fill(t, 5).s;
    AheadParts(u);
    HeaderAccepted(u.mem, u.cnt, f, Raw(f) + rest, Destuff(u.dle, u.wire).0);
    ShiftShortens(u, 3);
  }

  /** One call, one frame, whatever the sizes of the reads and whatever comes behind it. The frame is returned
      exactly if the header is not looked at with five octets in the buffer, or the buffer happens to hold the
      check octet in sixth place. The octets behind it are left for the next call under the same condition
      if there is data, and only with six octets if there is none. */
  lemma RecvReturnsFrame(s: Rx, off: nat, f: Frame, rest: seq<byte>)
    requires RxOk(s) && off <= s.cnt && Prompt(s) && Fits(f) && Ahead(Shift(s, off)) == Raw(f) + rest
    ensures var r, u := Recv(s, off), AtHeader(s, off).s;
      var stale := u.mem[5] == C.HeaderCrc(Header(f));
      && (Returned(r, f, Raw(f) + rest) <==> u.cnt != 5 || stale)
      && (r.Got? && r.frame == f && LeavesRest(r, rest) <==> u.cnt != 5 || (stale && f.pdu != []))
  {
    hide C.HeaderCrc, C.DataCrc, Raw, Header, Ahead, Recv, AtHeader, Shift;
    var u := AtHeader(s, off).s;
    if u.cnt != 5 || u.mem[5] == C.HeaderCrc(Header(f)) {
      HeaderStands(s, off, f, rest);
    } else {
      HeaderFalls(s, off, f, rest);
      SameSearch(s, off, u, 3);
      RecvUses(u, 3);
    }
  }

  /** The outcome depends on what the search finds. */
  lemma SameSearch(s: Rx, off: nat, u: Rx, e: nat)
    requires RxOk(s) && off <= s.cnt && RxOk(u) && e <= u.cnt && FindHeader(s, off) == FindHeader(u, e)
    ensures Recv(s, off) == Recv(u, e)
  {
    hide FindHeader, Fill, C.DataCrc;
  }

  // ---------------------------------------------------------------- a stream of frames

  predicate AllFit(fs: seq<Frame>) {
    forall i :: 0 <= i < |fs| ==> Fits(fs[i])
  }

  function RawAll(fs: seq<Frame>): seq<byte>
    requires AllFit(fs)
  {
    if fs == [] then [] else Raw(fs[0]) + RawAll(fs[1..])
  }

  function EncodeAll(fs: seq<Frame>): seq<byte>
    requires AllFit(fs)
  {
    if fs == [] then [] else Encode(fs[0]) + EncodeAll(fs[1..])
  }

  lemma {:induction false} DestuffAll(fs: seq<Frame>)
    requires AllFit(fs)
    ensures Destuff(false, EncodeAll(fs)) == (RawAll(fs), false)
  {
    hide Raw;
    if fs != [] {
      DestuffAll(fs[1..]);
      DestuffStuff(Raw(fs[0]));
      DestuffConcat(false, Encode(fs[0]), EncodeAll(fs[1..]));
    }
  }

  /** The frames that up to k calls return before the first failure. */
  function Frames(s: Rx, off: nat, k: nat): seq<Frame>
    requires RxOk(s) && off <= s.cnt
    decreases k
  {
    if k == 0 then []
    else
      match Recv(s, off)
      case Reset(_, _) => []
      case Got(f, o, t) => [f] + if o <= t.cnt then Frames(t, o, k - 1) else []
  }

  /** The call looks at the header with six octets or more, or takes it on five for the sake of what the
      buffer holds in sixth place; without data that will only do for the last call. */
  predicate HeaderSeen(s: Rx, off: nat, last: bool)
    requires RxOk(s) && off <= s.cnt
  {
    var u := AtHeader(s, off).s;
    u.cnt != 5 || (HeaderError(u.mem) == 0 && (last || DataLen(u.mem) != 0))
  }

  /** So it is with each of up to k calls. */
  predicate HeadersSeen(s: Rx, off: nat, k: nat)
    requires RxOk(s) && off <= s.cnt
    decreases k
  {
    k == 0 ||
    (HeaderSeen(s, off, k == 1) &&
     match Recv(s, off)
     case Reset(_, _) => true
     case Got(_, o, t) => o <= t.cnt ==> HeadersSeen(t, o, k - 1))
  }

  function LenAll(fs: seq<Frame>): nat {
    if fs == [] then 0 else Len(fs[0]) + LenAll(fs[1..])
  }

  lemma {:induction false} RawLength(fs: seq<Frame>)
    requires AllFit(fs)
    ensures |RawAll(fs)| == LenAll(fs)
  {
    if fs != [] { RawLength(fs[1..]); }
  }

  /** Frames are not made of nothing: all that is returned was ahead, but for the one octet that the last
      header may have lacked. */
  lemma {:induction false} FramesUse(s: Rx, off: nat, k: nat)
    requires RxOk(s) && off <= s.cnt
    ensures LenAll(Frames(s, off, k)) <= |Ahead(Shift(s, off))| + 1
    decreases k
  {
    hide Recv, Ahead, Shift, Len;
    if k > 0 {
      RecvUses(s, off);
      var r := Recv(s, off);
      if r.Got? {
        var more := if r.off <= r.s.cnt then Frames(r.s, r.off, k - 1) else [];
        assert Frames(s, off, k) == [r.frame] + more && ([r.frame] + more)[1..] == more;
        if r.off <= r.s.cnt { FramesUse(r.s, r.off, k - 1); }
      }
    }
  }

  /** What HeaderSeen asks, in terms of the frame. */
  lemma SeenMeans(s: Rx, off: nat, f: Frame, rest: seq<byte>, last: bool)
    requires RxOk(s) && off <= s.cnt && Prompt(s) && Fits(f) && Ahead(Shift(s, off)) == Raw(f) + rest
    ensures var u := AtHeader(s, off).s;
      HeaderSeen(s, off, last) <==>
        u.cnt != 5 || (u.mem[5] == C.HeaderCrc(Header(f)) && (last || f.pdu != []))
  {
    hide C.HeaderCrc, C.DataCrc, HeaderError, Raw, Header, Ahead;
    RawAt(f, rest);
    FillSucceeds(Shift(s, off), 5);
    var u := AtHeader(s, off).s;
    AheadParts(u);
    HeaderAccepted(u.mem, u.cnt, f, Raw(f) + rest, Destuff(u.dle, u.wire).0);
  }

  lemma FrameAlone(s: Rx, off: nat, k: nat)
    requires RxOk(s) && off <= s.cnt && k > 0 && Recv(s, off).Got? && Recv(s, off).off > Recv(s, off).s.cnt
    ensures |Frames(s, off, k)| == 1
  {
    hide Recv;
  }

  /** The first frame is lost, and then there is too little left for all of them. */
  lemma FrameLost(s: Rx, off: nat, f: Frame, rest: seq<byte>, k: nat)
    requires RxOk(s) && off <= s.cnt && Prompt(s) && Fits(f) && Ahead(Shift(s, off)) == Raw(f) + rest && k > 0
    requires !HeaderSeen(s, off, k == 1)
    ensures |Frames(s, off, k)| != k || LenAll(Frames(s, off, k)) < |Raw(f) + rest|
  {
    hide C.HeaderCrc, Raw, Header, Recv, Ahead, AtHeader, Shift, HeaderSeen, Frames, LenAll, FindHeader;
    SeenMeans(s, off, f, rest, k == 1);
    var u := AtHeader(s, off).s;
    if u.mem[5] == C.HeaderCrc(Header(f)) {
      HeaderStands(s, off, f, rest);
      FrameAlone(s, off, k);
    } else {
      HeaderFalls(s, off, f, rest);
      SameSearch(s, off, u, 3);
      SameFrames(s, off, u, 3, k);
      FramesUse(u, 3, k);
    }
  }

  lemma SameFrames(s: Rx, off: nat, u: Rx, e: nat, k: nat)
    requires RxOk(s) && off <= s.cnt && RxOk(u) && e <= u.cnt && Recv(s, off) == Recv(u, e)
    ensures Frames(s, off, k) == Frames(u, e, k)
  {
    hide Recv;
  }

  lemma {:induction false} FramesInOrder(s: Rx, off: nat, fs: seq<Frame>)
    requires RxOk(s) && off <= s.cnt && Prompt(s) && AllFit(fs) && Ahead(Shift(s, off)) == RawAll(fs)
    ensures Frames(s, off, |fs|) == fs <==> HeadersSeen(s, off, |fs|)
    decreases |fs|
  {
    hide C.HeaderCrc, Raw, Header, Recv, Ahead, AtHeader, Shift, HeaderSeen;
    if fs != [] {
      var rest := RawAll(fs[1..]);
      if HeaderSeen(s, off, |fs| == 1) {
        SeenMeans(s, off, fs[0], rest, |fs| == 1);
        HeaderStands(s, off, fs[0], rest);
        var r := Recv(s, off);
        if r.off <= r.s.cnt {
          FramesInOrder(r.s, r.off, fs[1..]);
        }
      } else {
        FrameLost(s, off, fs[0], rest, |fs|);
        RawLength(fs);
      }
    }
  }

  /** Round trip: frames of any types and sizes, sent one after the other and read in any portions, come
      back in order, each with its type, length and PDU, exactly if no call has to take a header on five
      octets, unless the buffer happens to hold the sixth and there is data or no further frame. */
  lemma StreamRoundTrip(fs: seq<Frame>, mem: seq<byte>, sizes: seq<int>)
    requires AllFit(fs) && |mem| == MTU
    requires |sizes| >= |EncodeAll(fs)| && forall i :: 0 <= i < |sizes| ==> sizes[i] > 0
    ensures var s := Rx(mem, 0, false, EncodeAll(fs), sizes);
      Frames(s, 0, |fs|) == fs <==> HeadersSeen(s, 0, |fs|)
  {
    var s := Rx(mem, 0, false, EncodeAll(fs), sizes);
    DestuffAll(fs);
    assert Ahead(Shift(s, 0)) == RawAll(fs);
    FramesInOrder(s, 0, fs);
  }

  // ---------------------------------------------------------------- noise in front of a frame

  /** Octets in which the search finds no preamble: it skips those that are not 0x55 one by one, and such a one
      together with what follows it. */
  predicate Noise(n: seq<byte>)
    decreases |n|
  {
    n == [] || (n[0] != 0x55 && Noise(n[1..])) || (|n| >= 2 && n[0] == 0x55 && n[1] != 0xff && Noise(n[2..]))
  }

  /** No preamble at the front: one octet is dropped, or two if the first is that of a preamble. */
  lemma NoPreamble(s: Rx, off: nat, r: seq<byte>)
    requires RxOk(s) && off <= s.cnt && Prompt(s) && Ahead(Shift(s, off)) == r && |r| >= 5
    requires r[0] != 0x55 || r[1] != 0xff
    ensures var u, e := AtHeader(s, off).s, if r[0] == 0x55 then 2 else 1;
      && RxOk(u) && e <= u.cnt && Prompt(u) && Recv(s, off) == Recv(u, e) && Ahead(Shift(u, e)) == r[e..]
  {
    hide C.HeaderCrc, C.DataCrc, Ahead, Destuff, Recv, Shift;
    var t := Shift(s, off);
    ShiftKeepsPrompt(s, off);
    FillSucceeds(t, 5);
    var u := Fill(t, 5).s;
    var e := if r[0] == 0x55 then 2 else 1;
    AheadParts(u);
    assert u.mem[0] == r[0] && u.mem[1] == r[1];
    SearchGoesBehind(s, off, e);
    SameSearch(s, off, u, e);
    ShiftLeavesRest(u, e);
  }

  lemma ShiftKeepsPrompt(s: Rx, off: nat)
    requires RxOk(s) && off <= s.cnt
    ensures RxOk(Shift(s, off)) && (Prompt(s) ==> Prompt(Shift(s, off)))
  {
  }

  lemma SearchGoesBehind(s: Rx, off: nat, e: nat)
    requires RxOk(s) && off <= s.cnt && AtHeader(s, off).Full?
    requires HeaderError(AtHeader(s, off).s.mem) == e > 0
    ensures FindHeader(s, off) == FindHeader(AtHeader(s, off).s, e)
  {
    hide HeaderError, Fill;
    FilledEnough(Shift(s, off), 5);
    ErrorSkips(AtHeader(s, off).s.mem);
  }

  /** Noise in front of what comes is dropped, and nothing more: the call goes on as one that starts behind. */
  lemma {:induction false} NoiseSkipped(s: Rx, off: nat, n: seq<byte>, rest: seq<byte>) returns (u: Rx, e: nat)
    requires RxOk(s) && off <= s.cnt && Prompt(s) && Ahead(Shift(s, off)) == n + rest && Noise(n) && |rest| >= 5
    ensures RxOk(u) && e <= u.cnt && Prompt(u) && Ahead(Shift(u, e)) == rest && Recv(s, off) == Recv(u, e)
    decreases |n|
  {
    hide Ahead, Shift, Recv, AtHeader, Prompt;
    if n == [] {
      assert n + rest == rest;
      u, e := s, off;
    } else {
      var r := n + rest;
      NoPreamble(s, off, r);
      var k := if n[0] == 0x55 then 2 else 1;
      assert r[k..] == n[k..] + rest;
      u, e := NoiseSkipped(AtHeader(s, off).s, k, n[k..], rest);
    }
  }

  /** An octet 0x55 just before a frame is taken for the start of its preamble, and the start of the preamble is
      dropped with it: the frame is lost, however it is read. */
  lemma StrayPreambleLosesFrame(s: Rx, off: nat, f: Frame, rest: seq<byte>)
    requires RxOk(s) && off <= s.cnt && Prompt(s) && Fits(f) && Ahead(Shift(s, off)) == [0x55] + Raw(f) + rest
    ensures var r := Recv(s, off); r.Got? ==> |Ahead(r.s)| < |Raw(f) + rest|
    ensures !Returned(Recv(s, off), f, Raw(f) + rest)
  {
    hide C.HeaderCrc, C.DataCrc, Ahead, Shift, Recv, Header, AtHeader;
    var r := [0x55] + Raw(f) + rest;
    RawAt(f, rest);
    assert r[1] == (Raw(f) + rest)[..5][0];
    NoPreamble(s, off, r);
    RecvUses(AtHeader(s, off).s, 2);
  }

  // ---------------------------------------------------------------- damaged frames

  /** The frame as it may arrive: its header, the PDU it has now, and the data check that was sent. */
  function Arrived(f: Frame, low: byte, high: byte): seq<byte>
    requires Fits(f)
  {
    [0x55, 0xff] + Header(f) + [C.HeaderCrc(Header(f))] + f.pdu + [low, high]
  }

  lemma ArrivedAt(f: Frame, low: byte, high: byte, rest: seq<byte>)
    requires Fits(f)
    ensures var r, n := Arrived(f, low, high) + rest, |f.pdu|;
      && HeadedBy(r, f) && |r| >= n + 8 && r[6..6 + n] == f.pdu && r[n + 6] == low && r[n + 7] == high
  {
    hide C.HeaderCrc;
  }

  /** The data check decides, and nothing else: once its header has been accepted, a frame with data is
      returned if the check is that of its PDU, and refused with -1 if it is not. */
  lemma CheckDecides(s: Rx, off: nat, f: Frame, low: byte, high: byte, rest: seq<byte>)
    requires RxOk(s) && off <= s.cnt && Prompt(s) && Fits(f) && f.pdu != []
    requires Ahead(Shift(s, off)) == Arrived(f, low, high) + rest
    requires AtHeader(s, off).s.cnt != 5 || AtHeader(s, off).s.mem[5] == C.HeaderCrc(Header(f))
    ensures var r := Recv(s, off);
      r == if Word(high, low) == C.DataCrc(f.pdu) then Got(f, |f.pdu| + 8, r.s) else Reset(-1, r.s)
  {
    hide C.HeaderCrc, C.DataCrc, DataLen, FindHeader, AtHeader, Fill, Shift, Arrived, Header, Ahead, Prompt, HeadedBy;
    var r := Arrived(f, low, high) + rest;
    ArrivedAt(f, low, high, rest);
    HeaderFound(s, off, f, r);
    var u := AtHeader(s, off).s;
    FilledEnough(u, |f.pdu| + 8);
    DataReturned(u, f, r);
  }

  lemma WordOfCheck(c: int)
    requires 0 <= c < 0x10000
    ensures c / 256 < 256 && Word(c / 256, c % 256) == c
  {
  }

  /** A frame whose PDU has been damaged within two consecutive octets, wherever, is refused however it is
      read, unless its header is missed. */
  lemma DamagedPduRefused(s: Rx, off: nat, f: Frame, pdu: seq<byte>, i: nat, rest: seq<byte>)
    requires RxOk(s) && off <= s.cnt && Prompt(s) && Fits(f) && C.Burst(f.pdu, pdu, i)
    requires Ahead(Shift(s, off)) ==
      Arrived(Frame(f.typ, pdu), C.DataCrc(f.pdu) % 256, C.DataCrc(f.pdu) / 256) + rest
    requires AtHeader(s, off).s.cnt != 5 || AtHeader(s, off).s.mem[5] == C.HeaderCrc(Header(f))
    ensures Recv(s, off) == Reset(-1, Recv(s, off).s)
  {
    hide C.HeaderCrc, C.DataCrc, AtHeader, Shift, Arrived, Ahead, Prompt, Recv;
    WordOfCheck(C.DataCrc(f.pdu));
    C.DataCrcDetectsBurst(f.pdu, pdu, i);
    CheckDecides(s, off, Frame(f.typ, pdu), C.DataCrc(f.pdu) % 256, C.DataCrc(f.pdu) / 256, rest);
  }

  /** So is a frame with one octet of its header damaged: the preamble and the type are dropped, and the
      search goes on behind them. */
  lemma DamagedHeaderRefused(s: Rx, off: nat, header: seq<byte>, i: nat, c: byte, rest: seq<byte>)
    requires RxOk(s) && off <= s.cnt && Prompt(s) && |header| == 3 && i < 3 && c != header[i]
    requires Ahead(Shift(s, off)) == [0x55, 0xff] + header[i := c] + [C.HeaderCrc(header)] + rest
    requires AtHeader(s, off).s.cnt != 5
    ensures var u := AtHeader(s, off).s; u.cnt >= 6 && Recv(s, off) == Recv(u, 3)
  {
    hide C.HeaderCrc, C.DataCrc, Ahead, HeaderError, Destuff;
    FillSucceeds(Shift(s, off), 5);
    var u := Fill(Shift(s, off), 5).s;
    AheadParts(u);
    C.HeaderCrcDetectsOctet(header, i, c);
    OtherHeader(u.mem, u.cnt, header[i := c], C.HeaderCrc(header), rest, Destuff(u.dle, u.wire).0);
    SameSearch(s, off, u, 3);
  }

  lemma OtherHeader(mem: seq<byte>, cnt: nat, h: seq<byte>, c: byte, rest: seq<byte>, tail: seq<byte>)
    requires |mem| == MTU && 6 <= cnt <= MTU && |h| == 3 && mem[..cnt] + tail == [0x55, 0xff] + h + [c] + rest
    ensures HeaderError(mem) == if c == C.HeaderCrc(h) then 0 else 3
  {
    hide C.HeaderCrc;
    var r := [0x55, 0xff] + h + [c] + rest;
    assert forall k :: 0 <= k < 6 ==> mem[k] == r[k];
    assert mem[2..5] == h;
  }

  /** One is a tail of the other. */
  predicate TailOf(a: seq<byte>, b: seq<byte>) {
    |a| <= |b| && a == b[|b| - |a|..]
  }

  lemma TailOfTail(a: seq<byte>, b: seq<byte>, c: seq<byte>)
    requires TailOf(a, b) && TailOf(b, c)
    ensures TailOf(a, c)
  {
  }

  /** The search for a header drops octets from the front of what is ahead, and does nothing else to it. */
  lemma {:induction false} SearchDropsFront(s: Rx, off: nat)
    requires RxOk(s) && off <= s.cnt
    ensures TailOf(Ahead(FindHeader(s, off).s), Ahead(Shift(s, off)))
    decreases |s.sizes|, s.cnt
  {
    hide Ahead, HeaderError, Shift, TailOf;
    var t := Shift(s, off);
    FillKeepsAhead(t, 5);
    SearchGoesOn(s, off);
    TailOfItself(Ahead(t));
    match Fill(t, 5)
    case Silence(n, u) =>
    case Full(u) =>
      var e := HeaderError(u.mem);
      if e != 0 {
        ErrorSkips(u.mem);
        DropIsTail(u, e);
        SearchDropsFront(u, e);
        TailOfTail(Ahead(FindHeader(u, e).s), Ahead(Shift(u, e)), Ahead(u));
      }
  }

  lemma TailOfItself(a: seq<byte>)
    ensures TailOf(a, a)
  {
  }

  lemma DropIsTail(s: Rx, off: nat)
    requires RxOk(s) && 0 < off <= s.cnt
    ensures TailOf(Ahead(Shift(s, off)), Ahead(s))
  {
    ShiftLeavesRest(s, off);
  }

  /** The buffer holds a frame: the one that was returned, with its checks. */
  predicate Holds(mem: seq<byte>, f: Frame)
    requires |mem| == MTU
  {
    && Fits(f) && mem[..5] == Raw(f)[..5]
    && (f.pdu != [] ==> mem[6..|f.pdu| + 8] == Raw(f)[6..])
  }

  lemma HeaderGood(s: Rx, off: nat)
    requires RxOk(s) && off <= s.cnt && FindHeader(s, off).Full?
    ensures HeaderError(FindHeader(s, off).s.mem) == 0
  {
  }

  /** What is in the buffer stays there while more is read. */
  lemma FillKeepsFront(s: Rx, need: nat)
    requires RxOk(s)
    ensures Fill(s, need).s.mem[..s.cnt] == s.mem[..s.cnt]
  {
    hide Fill, Destuff;
    FillKeepsAhead(s, need);
    var t := Fill(s, need).s;
    assert t.mem[..s.cnt] == Ahead(t)[..s.cnt] == Ahead(s)[..s.cnt];
  }

  lemma HoldsHeader(mem: seq<byte>, f: Frame)
    requires |mem| == MTU && HeaderError(mem) == 0 && DataLen(mem) == 0 && f == Frame(mem[2], [])
    ensures Holds(mem, f) && mem[5] == C.HeaderCrc(Header(f))
  {
    hide C.HeaderCrc;
    assert mem[2..5] == Header(f);
  }

  lemma HoldsData(mem: seq<byte>, cnt: nat, full: seq<byte>, len: nat)
    requires |mem| == MTU == |full| && HeaderError(mem) == 0 && DataLen(mem) == len != 0 && len + 8 <= MTU
    requires 5 <= cnt <= MTU && full[..cnt] == mem[..cnt]
    requires Word(full[len + 7], full[len + 6]) == C.DataCrc(full[6..6 + len])
    ensures var f := Frame(full[2], full[6..6 + len]);
      Holds(full, f) && (cnt != 5 ==> full[5] == C.HeaderCrc(Header(f)))
  {
    hide C.HeaderCrc, C.DataCrc;
    var f := Frame(full[2], full[6..6 + len]);
    assert forall i :: 0 <= i < cnt ==> full[i] == full[..cnt][i] == mem[i];
    assert mem[2..5] == Header(f);
    assert full[6..len + 8] == full[6..6 + len] + [full[len + 6], full[len + 7]];
    assert Raw(f)[6..] == f.pdu + [full[len + 6], full[len + 7]];
  }

  /** Whatever was on the wire: a frame that is returned stood there as it is, in the place where the call
      stops, with the right data check; so did the header check, or the header was taken on five octets. */
  lemma ReturnedIsIntact(s: Rx, off: nat)
    requires RxOk(s) && off <= s.cnt
    ensures var r, u := Recv(s, off), FindHeader(s, off).s;
      r.Got? ==>
        && Holds(r.s.mem, r.frame) && TailOf(Ahead(r.s), Ahead(Shift(s, off)))
        && r.s.mem[..r.s.cnt] == Ahead(r.s)[..r.s.cnt]
        && (u.cnt != 5 || r.frame.pdu == [] ==> r.s.mem[5] == C.HeaderCrc(Header(r.frame)))
  {
    hide C.HeaderCrc, C.DataCrc, Ahead, Shift, FindHeader, Fill, Holds, TailOf, Header, HeaderError;
    var r := Recv(s, off);
    if r.Got? {
      SearchDropsFront(s, off);
      HeaderThere(s, off);
      var h := FindHeader(s, off);
      HeaderGood(s, off);
      AheadParts(r.s);
      if DataLen(h.s.mem) == 0 {
        HoldsHeader(h.s.mem, r.frame);
      } else {
        FillKeepsAhead(h.s, DataLen(h.s.mem) + 8);
        FillKeepsFront(h.s, DataLen(h.s.mem) + 8);
        HoldsData(h.s.mem, h.s.cnt, r.s.mem, DataLen(h.s.mem));
      }
    }
  }

  // ---------------------------------------------------------------- exactly five octets

  lemma {:induction false} FillFails(s: Rx, need: nat)
    requires RxOk(s) && |Ahead(s)| < need
    ensures Fill(s, need).Silence?
    decreases |s.sizes|
  {
    var n := ReadLen(s);
    if n > 0 {
      TakeKeepsAhead(s, n);
      FillFails(Take(s, n), need);
    }
  }

  lemma ShortFrameRefused(u: Rx, typ: byte)
    requires RxOk(u) && u.cnt >= 5 && Ahead(u) == Raw(Frame(typ, [])) && HeaderError(u.mem) != 0
    ensures FindHeader(u, 3).Silence?
  {
    hide C.HeaderCrc, C.DataCrc, HeaderError;
    ShiftLeavesRest(u, 3);
    FillFails(Shift(u, 3), 5);
  }

  /** A frame without data, and nothing behind it: it is returned exactly if the header is not looked at
      with five octets in the buffer, or the buffer happens to hold the check octet in sixth place. */
  lemma ShortFrameReturned(s: Rx, off: nat, typ: byte)
    requires RxOk(s) && off <= s.cnt && Prompt(s) && Ahead(Shift(s, off)) == Raw(Frame(typ, []))
    ensures Recv(s, off).Got? <==>
      AtHeader(s, off).s.cnt != 5 || AtHeader(s, off).s.mem[5] == C.HeaderCrc(Header(Frame(typ, [])))
    ensures Recv(s, off).Got? ==> Recv(s, off).frame == Frame(typ, [])
  {
    hide C.HeaderCrc, C.DataCrc, HeaderError, Ahead;
    var f := Frame(typ, []);
    RawAt(f, []);
    assert Raw(f) + [] == Raw(f);
    FillSucceeds(Shift(s, off), 5);
    var u := Fill(Shift(s, off), 5).s;
    AheadParts(u);
    HeaderAccepted(u.mem, u.cnt, f, Raw(f), Destuff(u.dle, u.wire).0);
    if HeaderError(u.mem) != 0 {
      ShortFrameRefused(u, typ);
    }
  }

  lemma AheadParts(s: Rx)
    requires RxOk(s)
    ensures Ahead(s) == s.mem[..s.cnt] + Destuff(s.dle, s.wire).0
  {
  }

  /** Reads of one octet each look at every header with exactly five, and leave the sixth place alone. */
  lemma {:induction false} OctetByOctet(s: Rx, need: nat)
    requires RxOk(s) && Prompt(s) && s.cnt <= need < MTU && |Ahead(s)| >= need
    requires forall i :: 0 <= i < |s.sizes| ==> s.sizes[i] == 1
    ensures Fill(s, need).s.cnt == need && Fill(s, need).s.mem[need] == s.mem[need]
    decreases |s.sizes|
  {
    if s.cnt < need {
      assert s.wire != [];
      TakeKeepsAhead(s, 1);
      OctetByOctet(Take(s, 1), need);
    }
  }

  /** So a receiver that gets one octet a read, on a buffer that has been cleared, misses every frame
      whose check octet is not zero. */
  lemma OctetReadsMissFrame(s: Rx, off: nat, f: Frame, rest: seq<byte>)
    requires RxOk(s) && off <= s.cnt && Prompt(s) && Fits(f) && Ahead(Shift(s, off)) == Raw(f) + rest
    requires Shift(s, off).cnt <= 5 && forall i :: 0 <= i < |s.sizes| ==> s.sizes[i] == 1
    ensures Returned(Recv(s, off), f, Raw(f) + rest) <==> Shift(s, off).mem[5] == C.HeaderCrc(Header(f))
    ensures f.pdu == [] && rest == [] ==>
      (Recv(s, off).Got? <==> Shift(s, off).mem[5] == C.HeaderCrc(Header(f)))
  {
    hide C.HeaderCrc, C.DataCrc, HeaderError, Raw, Header, Ahead, Recv;
    RawAt(f, rest);
    OctetByOctet(Shift(s, off), 5);
    RecvReturnsFrame(s, off, f, rest);
    if f.pdu == [] && rest == [] {
      assert Raw(f) + rest == Raw(f);
      ShortFrameReturned(s, off, f.typ);
    }
  }

  // ---------------------------------------------------------------- and the call after that

  /** The next call can move the rest of the buffer to its front exactly if this one has not accepted a
      frame without data on the strength of five octets: it would have less than nothing to move. */
  lemma NextCallCanStart(s: Rx, off: nat)
    requires RxOk(s) && off <= s.cnt
    ensures var r := Recv(s, off);
      r.Got? ==> (r.off <= r.s.cnt <==> !(r.frame.pdu == [] && r.s.cnt == 5))
  {
    hide C.HeaderCrc, C.DataCrc;
  }

  lemma StuffedHead(f: Frame)
    requires f.pdu == [] && IsType(f.typ)
    ensures |Encode(f)| >= 5 && Encode(f)[..5] == Raw(f)[..5]
    ensures Destuff(false, Raw(f)[..5]) == (Raw(f)[..5], false)
  {
    hide C.HeaderCrc;
    var head := [0x55, 0xff, f.typ, 0, 0];
    assert Raw(f)[..5] == head;
    PlainStuff(head, Raw(f)[5..]);
    assert head + Raw(f)[5..] == Raw(f);
    PlainStuff(head, []);
    assert head + [] == head;
    assert Stuff([]) == [];
    DestuffStuff(head);
  }

  lemma {:induction false} PlainStuff(a: seq<byte>, b: seq<byte>)
    requires forall i :: 0 <= i < |a| ==> !Special(a[i])
    ensures Stuff(a + b) == a + Stuff(b)
  {
    if a == [] {
      assert a + b == b;
      assert [] + Stuff(b) == Stuff(b);
    } else {
      assert (a + b)[0] == a[0] && (a + b)[1..] == a[1..] + b;
      PlainStuff(a[1..], b);
      assert [a[0]] + (a[1..] + Stuff(b)) == a + Stuff(b);
    }
  }

  /** The frame that is still in the buffer makes up for the octet that is missing of its copy. */
  lemma CopyOfFive(s: Rx, f: Frame)
    requires RxOk(s) && f.pdu == [] && s.cnt == 11 && s.mem[..11] == Raw(f) + Raw(f)[..5]
    ensures Recv(s, 6) == Got(f, 6, Shift(s, 6)) && Shift(s, 6).cnt == 5
  {
    hide C.HeaderCrc, C.DataCrc;
    var t := Shift(s, 6);
    RawAt(f, []);
    assert Raw(f) + [] == Raw(f);
    assert forall i :: 0 <= i < 5 ==> t.mem[i] == s.mem[..11][6 + i] == Raw(f)[..5][i];
    assert t.mem[5] == s.mem[..11][5] == Raw(f)[5];
    assert t.mem[2..5] == Header(f);
    assert Fill(t, 5) == Full(t);
  }

  /** The first read of two copies: all of one, and the part of the other that its header is told by. */
  lemma FirstCopyTaken(mem: seq<byte>, f: Frame) returns (u: Rx)
    requires |mem| == MTU && f.pdu == [] && IsType(f.typ)
    ensures var s := Rx(mem, 0, false, Encode(f) + Encode(f), [|Encode(f)| + 5]);
      Fill(Shift(s, 0), 5) == Full(u)
    ensures RxOk(u) && u.cnt == 11 && u.mem[..11] == Raw(f) + Raw(f)[..5]
  {
    hide Stuff, Destuff, Raw, Encode;
    var s := Rx(mem, 0, false, Encode(f) + Encode(f), [|Encode(f)| + 5]);
    TwoCopies(f);
    var n := |Encode(f)| + 5;
    assert s.wire[..n] == Encode(f) + Encode(f)[..5];
    u := Take(s, n);
  }

  lemma TwoCopies(f: Frame)
    requires f.pdu == [] && IsType(f.typ)
    ensures 5 <= |Encode(f)| <= 7 && |Raw(f) + Raw(f)[..5]| == 11
    ensures Destuff(false, Encode(f) + Encode(f)[..5]) == (Raw(f) + Raw(f)[..5], false)
  {
    hide Stuff, Destuff;
    EncodedFrame(f);
    StuffedHead(f);
    DestuffStuff(Raw(f));
    DestuffConcat(false, Encode(f), Encode(f)[..5]);
  }

  /** It happens when a frame without data comes twice and five octets of the second are read with the
      first: both are returned, and the next call would start with six octets of five to skip. */
  lemma SameFrameTwice(mem: seq<byte>, typ: byte)
    requires |mem| == MTU && IsType(typ)
    ensures var f := Frame(typ, []);
      var r := Recv(Rx(mem, 0, false, Encode(f) + Encode(f), [|Encode(f)| + 5]), 0);
      && r.Got? && r.frame == f && r.off <= r.s.cnt
      && var q := Recv(r.s, r.off); q.Got? && q.frame == f && q.off == 6 && q.s.cnt == 5
  {
    hide C.HeaderCrc, C.DataCrc, Raw, Encode, Take, Shift;
    var f := Frame(typ, []);
    var u := FirstCopyTaken(mem, f);
    FirstCopyReturned(mem, f, u);
    CopyOfFive(u, f);
  }

  lemma FirstCopyReturned(mem: seq<byte>, f: Frame, u: Rx)
    requires |mem| == MTU && f.pdu == [] && RxOk(u) && u.cnt == 11 && u.mem[..11] == Raw(f) + Raw(f)[..5]
    requires Fill(Shift(Rx(mem, 0, false, Encode(f) + Encode(f), [|Encode(f)| + 5]), 0), 5) == Full(u)
    ensures Recv(Rx(mem, 0, false, Encode(f) + Encode(f), [|Encode(f)| + 5]), 0) == Got(f, 6, u)
  {
    hide C.HeaderCrc, C.DataCrc, Encode, Fill, Raw;
    assert u.mem[..11] + [] == u.mem[..11];
    RawAt(f, Raw(f)[..5]);
    HeaderAccepted(u.mem, 11, f, u.mem[..11], []);
  }
}
