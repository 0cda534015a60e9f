/**
 * The serial flash loader: erase, receive by XMODEM, write what fits. The flash takes half pages of 128
 * octets; a write that does not cover a whole one reads it first and programs it back.
 *
 * Erasing and programming are taken to succeed, and the flash is addressed from its base.
 */
module Loader {
  import opened Bytes
  import X = Xmodem
  import R = XmodemReceiver

  const HALF_PAGE := 128
  const PAGE := 256
  const BLANK: byte := 0

  // ---------------------------------------------------------------- what the flash should hold

  function PageStart(offs: nat): (p: nat)
    ensures p <= offs < p + PAGE && p % PAGE == 0
  {
    offs - offs % PAGE
  }

  function PageEnd(end: nat): (p: nat)
    ensures end <= p < end + PAGE && p % PAGE == 0
  {
    (end + PAGE - 1) / PAGE * PAGE
  }

  /** Pages are erased as a whole: everything from the start of the first to the end of the last. */
  function Erased(m: seq<byte>, offs: nat, len: nat): (r: seq<byte>)
    requires len > 0 && PageEnd(offs + len) <= |m|
    ensures |r| == |m|
    ensures forall k :: 0 <= k < |m| ==> r[k] == if PageStart(offs) <= k < PageEnd(offs + len) then BLANK else m[k]
  {
    seq(|m|, k requires 0 <= k < |m| => if PageStart(offs) <= k < PageEnd(offs + len) then BLANK else m[k])
  }

  /** Erasing before the next attempt leaves no trace of the last. */
  lemma ErasedAgain(m: seq<byte>, offs: nat, len: nat, data: seq<byte>)
    requires len > 0 && PageEnd(offs + len) <= |m| && |data| <= len
    ensures Erased(Overlay(Erased(m, offs, len), offs, data), offs, len) == Erased(m, offs, len)
  {
  }

  /** No octet outside the range has changed. */
  predicate OutsideKept(m: seq<byte>, r: seq<byte>, offs: nat, len: nat)
    requires |m| == |r|
  {
    forall k :: 0 <= k < |m| && !(offs <= k < offs + len) ==> r[k] == m[k]
  }

  /** Erasing a range leaves the octets outside it alone, whatever they are, exactly if the range begins and
      ends at pages. */
  lemma ErasesRangeExactly(size: nat, offs: nat, len: nat)
    requires len > 0 && PageEnd(offs + len) <= size
    ensures (forall m: seq<byte> :: |m| == size ==> OutsideKept(m, Erased(m, offs, len), offs, len))
      <==> offs % PAGE == 0 && (offs + len) % PAGE == 0
  {
    if offs % PAGE == 0 && (offs + len) % PAGE == 0 {
      Aligned(offs, len);
    } else {
      var m: seq<byte> := seq(size, _ => 0xff);
      var k := Misaligned(offs, len);
      assert Erased(m, offs, len)[k] != m[k];
      assert !OutsideKept(m, Erased(m, offs, len), offs, len);
    }
  }

  lemma Aligned(offs: nat, len: nat)
    requires offs % PAGE == 0 && (offs + len) % PAGE == 0
    ensures PageStart(offs) == offs && PageEnd(offs + len) == offs + len
  {
  }

  /** An octet of the touched pages that is not in the range. */
  lemma Misaligned(offs: nat, len: nat) returns (k: nat)
    requires len > 0 && (offs % PAGE != 0 || (offs + len) % PAGE != 0)
    ensures PageStart(offs) <= k < PageEnd(offs + len) && !(offs <= k < offs + len)
  {
    k := if offs % PAGE != 0 then PageStart(offs) else offs + len;
  }

  function Concat(blocks: seq<seq<byte>>): seq<byte> {
    if blocks == [] then [] else blocks[0] + Concat(blocks[1..])
  }

  lemma {:induction false} ConcatSnoc(blocks: seq<seq<byte>>, b: seq<byte>)
    ensures Concat(blocks + [b]) == Concat(blocks) + b
  {
    if blocks == [] {
      assert [b][1..] == [] && b + [] == b;
    } else {
      ConcatSnoc(blocks[1..], b);
      assert (blocks + [b])[1..] == blocks[1..] + [b];
      assert blocks[0] + (Concat(blocks[1..]) + b) == (blocks[0] + Concat(blocks[1..])) + b;
    }
  }

  function Fitting(data: seq<byte>, size: nat): (r: seq<byte>)
    ensures |r| == Min(|data|, size)
  {
    if |data| <= size then data else data[..size]
  }

  // ---------------------------------------------------------------- the passes

  /** What one pass receives. */
  function Received(s: X.Line): seq<byte> {
    Concat(X.Transfer(X.Init(), s))
  }

  /** What the line still holds behind a pass. */
  function Behind(s: X.Line): X.Line {
    X.LastCall(X.Init(), s).rest
  }

  /** A pass on this line is the last: its last call returns 0, for the end of the transmission, and it
      has received something. */
  predicate Completes(s: X.Line) {
    X.LastCall(X.Init(), s).ret == 0 && Received(s) != []
  }

  lemma PassReads(s: X.Line)
    ensures X.Suffix(Behind(s), s) && (s != [] ==> |Behind(s)| < |s|)
  {
    hide X.RcvPkt, X.Suffix;
    X.LastCallSuffix(X.Init(), s);
  }

  /** The line at the start of pass k, counted from 0. */
  function PassLine(s: X.Line, k: nat): X.Line
    decreases k
  {
    if k == 0 then s else PassLine(Behind(s), k - 1)
  }

  /** The line at the start of the last pass: of the first one that completes, if there is one. */
  function LastPass(s: X.Line): X.Line
    decreases |s|
  {
    if s == [] || Completes(s) then s else PassReads(s); LastPass(Behind(s))
  }

  lemma SilenceCompletesNothing()
    ensures !Completes([])
  {
    hide X.Try;
    SilenceFails(X.Init());
  }

  lemma {:induction false} SilenceFails(rx: X.Rcv)
    requires rx.retry >= 1
    ensures X.RcvPkt(rx, []).ret == -1
    decreases rx.retry
  {
    assert X.Try(rx, []) == X.Failed(rx.sync, []) by { assert X.Scan([]) == X.NoHead([]); }
    if rx.retry > 1 { SilenceFails(rx.(retry := rx.retry - 1)); }
  }

  /** The last pass is pass k for some k: what it hears is an end piece of the line, no pass before it
      completes, and it completes itself or the line has run dry. */
  lemma {:induction false} LastPassExactly(s: X.Line) returns (k: nat)
    ensures LastPass(s) == PassLine(s, k) && X.Suffix(LastPass(s), s)
    ensures forall j: nat :: j < k ==> !Completes(PassLine(s, j))
    ensures Completes(LastPass(s)) <==> LastPass(s) != []
    decreases |s|
  {
    hide Completes, Behind;
    k := 0;
    if s == [] {
      SilenceCompletesNothing();
    } else if !Completes(s) {
      PassReads(s);
      var n := LastPassExactly(Behind(s));
      X.SuffixTransitive(LastPass(s), Behind(s), s);
      k := n + 1;
      forall j: nat | j < k
        ensures !Completes(PassLine(s, j))
      {
        if j > 0 { assert PassLine(s, j) == PassLine(Behind(s), j - 1); }
      }
    }
  }

  // ---------------------------------------------------------------- the flash

  class Flash {
    const mem: array<byte>

    constructor (size: nat)
      ensures fresh(mem) && mem.Length == size
    {
      mem := new byte[size](_ => BLANK);
    }

    /** `stm32l_flash_pg_wr`: a half page at a time. */
    method PgWr(offs: nat, blk: array<byte>)
      requires offs % HALF_PAGE == 0 && offs + HALF_PAGE <= mem.Length && blk.Length == HALF_PAGE && blk != mem
      modifies mem
      ensures mem[..] == Overlay(old(mem[..]), offs, blk[..])
    {
      for i := 0 to HALF_PAGE
        invariant forall k :: offs <= k < offs + i ==> mem[k] == blk[k - offs]
        invariant forall k :: 0 <= k < offs || offs + i <= k < mem.Length ==> mem[k] == old(mem[k])
      {
        mem[offs + i] := blk[i];
      }
    }

    /** The half page at base, with data laid over it at pos. */
    method Patch(base: nat, pos: nat, data: seq<byte>) returns (blk: array<byte>)
      requires base + HALF_PAGE <= mem.Length && pos + |data| <= HALF_PAGE
      ensures fresh(blk) && blk.Length == HALF_PAGE
      ensures blk[..] == Overlay(mem[base..base + HALF_PAGE], pos, data)
    {
      blk := new byte[HALF_PAGE](i requires 0 <= i < HALF_PAGE reads mem => mem[base + i]);
      for i := 0 to |data|
        invariant forall k :: pos <= k < pos + i ==> blk[k] == data[k - pos]
        invariant forall k :: 0 <= k < pos || pos + i <= k < HALF_PAGE ==> blk[k] == mem[base + k]
      {
        blk[pos + i] := data[i];
      }
    }

    /** One turn of `flash_write`: a whole half page, or the part of one that is to be written. */
    method WriteSome(offs: nat, data: seq<byte>)
      requires mem.Length % PAGE == 0 && offs + |data| <= mem.Length
      requires 0 < |data| <= HALF_PAGE - offs % HALF_PAGE
      modifies mem
      ensures mem[..] == Overlay(old(mem[..]), offs, data)
    {
      hide Overlay;
      var pos := offs % HALF_PAGE;
      var base := offs - pos;
      var blk := Patch(base, pos, data);
      PatchedInPlace(mem[..], base, pos, data, blk[..]);
      assert mem[base..base + HALF_PAGE] == mem[..][base..base + HALF_PAGE];
      PgWr(base, blk);
    }

    method WriteHalfPage(offs: nat, data: seq<byte>)
      requires offs % HALF_PAGE == 0 && offs + HALF_PAGE <= mem.Length && |data| == HALF_PAGE
      modifies mem
      ensures mem[..] == Overlay(old(mem[..]), offs, data)
    {
      var blk := new byte[HALF_PAGE](i requires 0 <= i < HALF_PAGE => data[i]);
      assert blk[..] == data;
      PgWr(offs, blk);
    }

    /** `flash_write`: the octets arrive in place, and nothing else changes. */
    method Write(offs: nat, buf: seq<byte>)
      requires mem.Length % PAGE == 0 && offs + |buf| <= mem.Length
      modifies mem
      ensures mem[..] == Overlay(old(mem[..]), offs, buf)
    {
      hide Overlay;
      var ptr := 0;
      var at := offs;
      OverlayNothing(mem[..], offs, []);
      assert buf[..0] == [];
      while ptr < |buf|
        invariant 0 <= ptr <= |buf| && (ptr < |buf| ==> at == offs + ptr)
        invariant mem[..] == Overlay(old(mem[..]), offs, buf[..ptr])
      {
        var rem := |buf| - ptr;
        var n := HALF_PAGE;
        var pos := at % HALF_PAGE;
        if pos != 0 || rem < HALF_PAGE {
          n := Min(HALF_PAGE - pos, rem);
          WriteSome(at, buf[ptr..ptr + n]);
        } else {
          WriteHalfPage(at, buf[ptr..ptr + n]);
        }
        OverlayTwice(old(mem[..]), offs, buf[..ptr], buf[ptr..ptr + n]);
        assert buf[..ptr] + buf[ptr..ptr + n] == buf[..ptr + n];
        ptr := ptr + n;
        at := at - pos + HALF_PAGE;
      }
      assert buf[..ptr] == buf;
    }

    /** `flash_erase`: page by page; the number of octets erased. */
    method Erase(offs: nat, len: nat) returns (cnt: nat)
      requires len > 0 && PageEnd(offs + len) <= mem.Length
      modifies mem
      ensures cnt == PageEnd(offs + len) - PageStart(offs) >= len
      ensures mem[..] == Erased(old(mem[..]), offs, len)
    {
      hide PageStart, PageEnd;
      PagesAround(offs, len);
      var start := PageStart(offs);
      ghost var stop := PageEnd(offs + len);
      cnt := 0;
      var rem := len + (offs - start);
      while rem > 0
        invariant rem + cnt == len + (offs - start) && cnt % PAGE == 0 && rem > -PAGE
        invariant start + cnt <= stop
        invariant forall k :: start <= k < start + cnt ==> mem[k] == BLANK
        invariant forall k :: 0 <= k < start || start + cnt <= k < mem.Length ==> mem[k] == old(mem[k])
      {
        PageFits(start, cnt, stop);
        forall k | start + cnt <= k < start + cnt + PAGE { mem[k] := BLANK; }
        rem := rem - PAGE;
        cnt := cnt + PAGE;
      }
      if start + cnt < stop { PageFits(start, cnt, stop); }
    }
  }

  lemma PagesAround(offs: nat, len: nat)
    ensures PageStart(offs) <= offs && PageStart(offs) % PAGE == 0
    ensures offs + len <= PageEnd(offs + len) < offs + len + PAGE && PageEnd(offs + len) % PAGE == 0
  {
  }

  lemma PageFits(start: nat, cnt: nat, stop: nat)
    requires start % PAGE == 0 && cnt % PAGE == 0 && stop % PAGE == 0 && start + cnt < stop
    ensures start + cnt + PAGE <= stop && (cnt + PAGE) % PAGE == 0
  {
  }

  /** A patched half page programmed back is the data written in place. */
  lemma PatchedInPlace(m: seq<byte>, base: nat, pos: nat, data: seq<byte>, blk: seq<byte>)
    requires base + HALF_PAGE <= |m| && pos + |data| <= HALF_PAGE
    requires blk == Overlay(m[base..base + HALF_PAGE], pos, data)
    ensures Overlay(m, base, blk) == Overlay(m, base + pos, data)
  {
  }

  // ---------------------------------------------------------------- the loader

  class Uploader {
    const flash: Flash
    const port: R.Port
    const rcv: R.Receiver

    constructor (flash: Flash, port: R.Port)
      ensures this.flash == flash && this.port == port
      ensures rcv.Valid() && rcv.View() == X.Init() && fresh(rcv) && fresh(rcv.pkt)
    {
      this.flash, this.port := flash, port;
      rcv := new R.Receiver();
    }

    ghost predicate Valid(offs: nat, size: nat)
      reads this, rcv
    {
      && rcv.Valid() && rcv.pkt != flash.mem
      && flash.mem.Length % PAGE == 0 && offs + size <= flash.mem.Length
    }

    /** The inner loop of `xflash`: one block, in pieces, as far as it fits. */
    method Store(offs: nat, size: nat, cnt0: nat, data: seq<byte>) returns (cnt: nat)
      requires Valid(offs, size) && cnt0 <= size
      modifies flash.mem
      ensures cnt == Min(cnt0 + |data|, size)
      ensures flash.mem[..] == Overlay(old(flash.mem[..]), offs + cnt0, data[..cnt - cnt0])
    {
      hide Overlay;
      cnt := cnt0;
      var src := 0;
      var rem := |data|;
      OverlayNothing(flash.mem[..], offs + cnt0, []);
      while rem > 0
        invariant rem >= 0 && src == |data| - rem && cnt == cnt0 + src <= size
        invariant flash.mem[..] == Overlay(old(flash.mem[..]), offs + cnt0, data[..src])
      {
        var n := Min(Min(rem, HALF_PAGE), size - cnt);
        if n == 0 { break; }
        flash.Write(offs + cnt, data[src..src + n]);
        OverlayTwice(old(flash.mem[..]), offs + cnt0, data[..src], data[src..src + n]);
        assert data[..src] + data[src..src + n] == data[..src + n];
        src := src + n;
        cnt := cnt + n;
        rem := rem - n;
      }
    }

    method StoreBlock(offs: nat, size: nat, cnt0: nat, ret: nat, ghost base: seq<byte>, ghost bs: seq<seq<byte>>)
      returns (cnt: nat)
      requires Valid(offs, size) && ret <= 1024 && |base| == flash.mem.Length
      requires cnt0 == Min(|Concat(bs)|, size) && flash.mem[..] == Overlay(base, offs, Fitting(Concat(bs), size))
      modifies flash.mem
      ensures var data := Concat(bs + [rcv.pkt[3..3 + ret]]);
        cnt == Min(|data|, size) && flash.mem[..] == Overlay(base, offs, Fitting(data, size))
    {
      hide Overlay, Fitting, Concat;
      ghost var data := rcv.pkt[3..3 + ret];
      ConcatSnoc(bs, data);
      FittingSnoc(Concat(bs), data, size);
      cnt := Store(offs, size, cnt0, rcv.pkt[3..3 + ret]);
      FittingLength(Concat(bs), size);
      OverlayTwice(base, offs, Fitting(Concat(bs), size), data[..cnt - cnt0]);
    }

    /** The next block, or none. */
    method Next() returns (ret: int)
      requires rcv.Valid() && rcv.retry >= 1
      modifies port, rcv, rcv.pkt
      ensures rcv.Valid() && ret <= 1024 && (ret > 0 ==> rcv.retry >= 1)
      ensures X.Transfer(old(rcv.View()), old(port.coming)) ==
        if ret > 0 then [rcv.pkt[3..3 + ret]] + X.Transfer(rcv.View(), port.coming) else []
      ensures var last := X.LastCall(old(rcv.View()), old(port.coming));
        if ret > 0 then last == X.LastCall(rcv.View(), port.coming) else last.ret == ret && last.rest == port.coming
      ensures |port.coming| <= |old(port.coming)| && (ret > 0 ==> |port.coming| < |old(port.coming)|)
    {
      hide X.Try;
      ghost var r := X.RcvPkt(rcv.View(), port.coming);
      ret := rcv.RcvPkt(port);
    }

    /** One pass of the outer loop of `xflash`: the flash ends up erased but for the first `size` octets of
        what was received. */
    method Round(offs: nat, size: nat) returns (ret: int, cnt: nat)
      requires Valid(offs, size) && size > 0 && PageEnd(offs + size) <= flash.mem.Length
      modifies flash.mem, port, rcv, rcv.pkt
      ensures Valid(offs, size)
      ensures ret == X.LastCall(X.Init(), old(port.coming)).ret && port.coming == Behind(old(port.coming))
      ensures var data := Received(old(port.coming));
        && cnt == Min(|data|, size)
        && flash.mem[..] == Overlay(Erased(old(flash.mem[..]), offs, size), offs, Fitting(data, size))
    {
      hide Overlay, Erased, X.RcvPkt, X.Transfer, X.LastCall, Concat, Fitting;
      ghost var all := X.Transfer(X.Init(), port.coming);
      ghost var last := X.LastCall(X.Init(), port.coming);
      var erased := flash.Erase(offs, size);
      ghost var base := flash.mem[..];
      assert |base| == flash.mem.Length;
      rcv.Init();
      cnt := 0;
      ghost var bs: seq<seq<byte>> := [];
      OverlayNothing(base, offs, []);
      NothingReceived(size);
      ret := Next();
      NoneYet(all);
      while ret > 0
        invariant Valid(offs, size) && (ret > 0 ==> rcv.retry >= 1) && ret <= 1024
        invariant all == bs + if ret > 0 then [rcv.pkt[3..3 + ret]] + X.Transfer(rcv.View(), port.coming) else []
        invariant cnt == Min(|Concat(bs)|, size)
        invariant flash.mem[..] == Overlay(base, offs, Fitting(Concat(bs), size))
        invariant
          if ret > 0 then last == X.LastCall(rcv.View(), port.coming) else last.ret == ret && last.rest == port.coming
        decreases |port.coming|, ret
      {
        ghost var data := rcv.pkt[3..3 + ret];
        cnt := StoreBlock(offs, size, cnt, ret, base, bs);
        OneMore(bs, data, X.Transfer(rcv.View(), port.coming));
        bs := bs + [data];
        ret := Next();
      }
      assert all == bs;
    }

    /** `xflash`: pass after pass, until one completes. `done` says that one did before the line ran dry; the
        original goes on asking for ever otherwise. The flash holds, at the place for it, exactly the first
        `size` octets received in the last pass, and no octet outside the erased pages has changed; the line
        has been read as far as that pass goes. */
    method Xflash(offs: nat, size: nat) returns (done: bool, ghost heard: X.Line)
      requires Valid(offs, size) && size > 0 && PageEnd(offs + size) <= flash.mem.Length
      modifies flash.mem, port, rcv, rcv.pkt
      ensures heard == LastPass(old(port.coming)) && port.coming == Behind(heard)
      ensures done <==> Completes(heard)
      ensures flash.mem[..] == Overlay(Erased(old(flash.mem[..]), offs, size), offs, Fitting(Received(heard), size))
    {
      hide Overlay, Erased, Received, Completes, Behind, X.LastCall, Fitting;
      ghost var m := flash.mem[..];
      ghost var written: bool, data: seq<byte> := false, [];
      while true
        invariant Valid(offs, size) && LastPass(port.coming) == LastPass(old(port.coming)) && |data| <= size
        invariant flash.mem[..] == if written then Overlay(Erased(m, offs, size), offs, data) else m
        decreases |port.coming|
      {
        if written { ErasedAgain(m, offs, size, data); }
        heard := port.coming;
        PassReads(heard);
        var dry := port.coming == [];
        var ret, cnt := Round(offs, size);
        FittingLength(Received(heard), size);
        CompletesWhen(heard, size);
        written, data := true, Fitting(Received(heard), size);
        if ret >= 0 && cnt != 0 { return true, heard; }
        if dry { return false, heard; }
      }
    }
  }

  lemma CompletesWhen(s: X.Line, size: nat)
    requires size > 0
    ensures Completes(s) <==> X.LastCall(X.Init(), s).ret >= 0 && Min(|Received(s)|, size) != 0
  {
    hide Received;
  }

  lemma FittingLength(data: seq<byte>, size: nat)
    ensures |Fitting(data, size)| == Min(|data|, size)
  {
  }

  lemma NothingReceived(size: nat)
    ensures Concat([]) == [] && Fitting([], size) == []
  {
  }

  lemma NoneYet(all: seq<seq<byte>>)
    ensures all == [] + all
  {
  }

  lemma OneMore(bs: seq<seq<byte>>, b: seq<byte>, more: seq<seq<byte>>)
    ensures bs + ([b] + more) == (bs + [b]) + more
  {
  }

  lemma FittingSnoc(a: seq<byte>, b: seq<byte>, size: nat)
    ensures var k := Min(|a| + |b|, size) - Min(|a|, size);
      0 <= k <= |b| && Fitting(a + b, size) == Fitting(a, size) + b[..k]
  {
  }
}
