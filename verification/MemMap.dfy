/**
 * The memory map of a target: a table of regions, each of equal blocks, walked block by block to read,
 * write or erase a range. The table is sorted, its regions do not overlap and do not wrap, and drivers
 * transfer exactly what they are asked for (a driver that erases may erase more).
 */
module MemMap {
  import opened Bytes

  const SPACE := 0x1_0000_0000

  /** `ice_mem_entry_t`: `count` blocks of `size` bytes from `start` (base plus offset) on. */
  datatype Region = Region(base: nat, start: nat, size: nat, count: nat, readOnly: bool)

  /** Computed in 32 bits: a region of the whole address space comes out empty, and is skipped. */
  function Size(e: Region): nat {
    (e.size * e.count) % SPACE
  }

  function End(e: Region): nat {
    e.start + Size(e)
  }

  predicate Contains(e: Region, a: int) {
    e.start <= a < End(e)
  }

  predicate GoodRegion(e: Region) {
    e.base <= e.start && e.start + e.size * e.count <= SPACE
  }

  predicate GoodMap(map0: seq<Region>) {
    && (forall i :: 0 <= i < |map0| ==> GoodRegion(map0[i]))
    && (forall i, j :: 0 <= i < j < |map0| ==> End(map0[i]) <= map0[j].start)
  }

  /** The address lies in a region, and in a writable one if that matters. */
  predicate Mapped(map0: seq<Region>, a: int, writable: bool) {
    exists i :: 0 <= i < |map0| && Contains(map0[i], a) && (writable ==> !map0[i].readOnly)
  }

  /** How many of the n addresses from a on are mapped before the first that is not. */
  function Reach(map0: seq<Region>, a: nat, n: nat, writable: bool): (r: nat)
    ensures r <= n
    decreases n
  {
    if n == 0 || !Mapped(map0, a, writable) then 0 else 1 + Reach(map0, a + 1, n - 1, writable)
  }

  lemma {:induction false} ReachOn(map0: seq<Region>, a: nat, n: nat, k: nat, writable: bool)
    requires k <= n && forall x :: a <= x < a + k ==> Mapped(map0, x, writable)
    ensures Reach(map0, a, n, writable) == k + Reach(map0, a + k, n - k, writable)
    decreases k
  {
    if k > 0 {
      assert Mapped(map0, a, writable);
      ReachOn(map0, a + 1, n - 1, k - 1, writable);
    }
  }

  /** Reach is what it says: all mapped up to there, and then not, unless the range is over. */
  lemma {:induction false} ReachIsLongest(map0: seq<Region>, a: nat, n: nat, writable: bool)
    ensures var r := Reach(map0, a, n, writable);
      && (forall x :: a <= x < a + r ==> Mapped(map0, x, writable))
      && (r < n ==> !Mapped(map0, a + r, writable))
    decreases n
  {
    if n > 0 && Mapped(map0, a, writable) { ReachIsLongest(map0, a + 1, n - 1, writable); }
  }

  // ---------------------------------------------------------------- the drivers

  /** A call of a driver: so many bytes from an address on. */
  datatype Call = Call(at: int, n: nat, ret: int)

  /** The call stays inside one block of a region, which is writable if that matters. */
  ghost predicate InOneBlock(map0: seq<Region>, c: Call, writable: bool) {
    exists i, b :: 0 <= i < |map0| && WithinBlock(map0[i], b, c) && (writable ==> !map0[i].readOnly)
  }

  predicate WithinBlock(e: Region, b: int, c: Call) {
    0 <= b < e.count && e.start + b * e.size <= c.at && c.at + c.n <= e.start + b * e.size + e.size
  }

  ghost predicate AllInOneBlock(map0: seq<Region>, calls: seq<Call>, writable: bool) {
    forall k :: 0 <= k < |calls| ==> InOneBlock(map0, calls[k], writable)
  }

  lemma DivBounds(d: nat, n: nat)
    requires n > 0
    ensures d / n * n <= d < d / n * n + n
  {
  }

  lemma Grows(a: nat, b: nat, n: nat)
    requires a <= b
    ensures n * a <= b * n
  {
  }

  /** The state of a walk over the blocks of a region: block blk is next, from address a in it on, and n
      bytes are left to its end; or the region is finished. */
  ghost predicate AtBlock(e: Region, blk: nat, a: nat, n: nat) {
    && blk <= e.count && a <= End(e) == e.start + e.size * e.count
    && (blk < e.count ==>
          e.size > 0 && n > 0 && e.start + blk * e.size <= a && a + n == e.start + blk * e.size + e.size <= End(e))
    && (blk == e.count ==> a == End(e))
  }

  lemma SizeFits(e: Region)
    requires GoodRegion(e) && Size(e) > 0
    ensures Size(e) == e.size * e.count < SPACE
  {
  }

  lemma FirstBlock(e: Region, a: nat) returns (blk: nat, n: nat)
    requires GoodRegion(e) && Contains(e, a)
    ensures e.size > 0 && blk == (a - e.start) / e.size && n == e.size - (a - (e.start + blk * e.size))
    ensures blk < e.count && AtBlock(e, blk, a, n)
  {
    SizeFits(e);
    var d := a - e.start;
    blk := d / e.size;
    DivBounds(d, e.size);
    if blk >= e.count { Grows(e.count, blk, e.size); }
    n := e.size - (a - (e.start + blk * e.size));
    Grows(blk + 1, e.count, e.size);
    assert blk * e.size + e.size == (blk + 1) * e.size;
  }

  lemma StepBlock(e: Region, blk: nat, a: nat, n: nat)
    requires AtBlock(e, blk, a, n) && blk < e.count
    ensures AtBlock(e, blk + 1, a + n, e.size) && a + n <= End(e)
  {
    assert blk * e.size + e.size == (blk + 1) * e.size;
    if blk + 1 < e.count {
      Grows(blk + 2, e.count, e.size);
      assert (blk + 1) * e.size + e.size == (blk + 2) * e.size;
    }
  }

  lemma CallFits(map0: seq<Region>, i: nat, blk: nat, a: nat, n: nat, k: nat, writable: bool)
    requires i < |map0| && AtBlock(map0[i], blk, a, n) && blk < map0[i].count && k <= n
    requires writable ==> !map0[i].readOnly
    ensures forall ret :: InOneBlock(map0, Call(a, k, ret), writable)
    ensures a + k <= End(map0[i])
  {
    forall ret
      ensures InOneBlock(map0, Call(a, k, ret), writable)
    {
      assert WithinBlock(map0[i], blk, Call(a, k, ret));
    }
  }

  lemma RegionDone(e: Region, a: nat, n: nat)
    requires AtBlock(e, e.count, a, n)
    ensures a == End(e)
  {
  }

  lemma OneMoreCall(map0: seq<Region>, calls: seq<Call>, c: Call, writable: bool)
    requires AllInOneBlock(map0, calls, writable) && InOneBlock(map0, c, writable)
    ensures AllInOneBlock(map0, calls + [c], writable)
  {
  }

  /** The calls made since `was` each stay inside one block. */
  ghost predicate Added(map0: seq<Region>, was: seq<Call>, calls: seq<Call>, writable: bool) {
    |was| <= |calls| && calls[..|was|] == was && AllInOneBlock(map0, calls[|was|..], writable)
  }

  lemma NothingAdded(map0: seq<Region>, was: seq<Call>, writable: bool)
    ensures Added(map0, was, was, writable)
  {
  }

  lemma OneAdded(map0: seq<Region>, was: seq<Call>, calls: seq<Call>, c: Call, writable: bool)
    requires Added(map0, was, calls, writable) && InOneBlock(map0, c, writable)
    ensures Added(map0, was, calls + [c], writable)
  {
    hide AllInOneBlock, InOneBlock;
    OneMoreCall(map0, calls[|was|..], c, writable);
    assert (calls + [c])[|was|..] == calls[|was|..] + [c];
    assert (calls + [c])[..|was|] == was;
  }

  // ---------------------------------------------------------------- erasing more or less than asked

  /** How a walk over one region ends: a driver has failed; the range is done, and `extra` bytes more; or
      the walk goes on behind the region. */
  datatype Progress = Failed(ret: int) | Finished(extra: nat) | Left(addr: nat, rem: nat)

  predicate Exact(calls: seq<Call>) {
    forall k :: 0 <= k < |calls| ==> calls[k].ret == calls[k].n
  }

  /** What the drivers say they have done, in all. */
  function Advanced(calls: seq<Call>): int {
    if calls == [] then 0 else Advanced(calls[..|calls| - 1]) + calls[|calls| - 1].ret
  }

  /** Each call starts where the calls before it have got to. */
  predicate Tiled(calls: seq<Call>, a: int) {
    forall k :: 0 <= k < |calls| ==> calls[k].at == a + Advanced(calls[..k])
  }

  /** Bytes advanced and bytes remaining add up to the range. */
  predicate Conserves(out: Progress, addr0: nat, rem0: nat, before: int, after: int) {
    match out
    case Failed(ret) => ret < 0
    case Finished(extra) => after == before + rem0 + extra
    case Left(addr, rem) => addr >= addr0 && after == before + (addr - addr0) && rem > 0 && rem + (addr - addr0) == rem0
  }

  function ExactProgress(e: Region, addr: nat, rem: nat): Progress
    requires Contains(e, addr)
  {
    if End(e) - addr < rem then Left(End(e), rem - (End(e) - addr)) else Finished(0)
  }

  // ---------------------------------------------------------------- the walk over the regions

  lemma NotIn(e: Region, a: nat)
    requires Size(e) == 0 || a < e.start || a > End(e) - 1
    ensures !Contains(e, a)
  {
  }

  lemma IsIn(e: Region, a: nat)
    requires !(Size(e) == 0 || a < e.start || a > End(e) - 1)
    ensures Contains(e, a)
  {
  }

  lemma GoodAt(map0: seq<Region>, i: nat)
    requires GoodMap(map0) && i < |map0|
    ensures GoodRegion(map0[i])
  {
  }

  lemma OneRegion(map0: seq<Region>, i: nat, j: nat, a: int)
    requires GoodMap(map0) && i < |map0| && j < |map0| && Contains(map0[i], a) && Contains(map0[j], a)
    ensures i == j
  {
  }

  lemma NoOtherRegion(map0: seq<Region>, i: nat, a: int)
    requires GoodMap(map0) && i < |map0| && Contains(map0[i], a)
    ensures forall j :: 0 <= j < |map0| && Contains(map0[j], a) ==> j == i
  {
    forall j | 0 <= j < |map0| && Contains(map0[j], a)
      ensures j == i
    {
      OneRegion(map0, i, j, a);
    }
  }

  /** A region carries the walk to its end or to the end of the range. */
  lemma RegionReached(map0: seq<Region>, i: nat, a: nat, n: nat, got: nat, writable: bool)
    requires GoodMap(map0) && i < |map0| && Contains(map0[i], a) && got == Min(End(map0[i]) - a, n)
    requires writable ==> !map0[i].readOnly
    ensures Reach(map0, a, n, writable) == got + Reach(map0, a + got, n - got, writable)
    ensures got < n ==> forall j :: 0 <= j < i + 1 ==> !Contains(map0[j], a + got)
    ensures a + got <= SPACE
  {
    hide Contains, End, Mapped, Reach;
    forall x | a <= x < a + got
      ensures Mapped(map0, x, writable)
    {
      InRegion(map0, i, a, x, writable);
    }
    ReachOn(map0, a, n, got, writable);
    RegionBounds(map0, i);
    if got < n {
      forall j | 0 <= j < i + 1
        ensures !Contains(map0[j], a + got)
      {
        BehindRegion(map0, i, j, a + got);
      }
    }
  }

  lemma InRegion(map0: seq<Region>, i: nat, a: nat, x: nat, writable: bool)
    requires i < |map0| && Contains(map0[i], a) && a <= x < End(map0[i]) && (writable ==> !map0[i].readOnly)
    ensures Mapped(map0, x, writable)
  {
    assert Contains(map0[i], x);
  }

  lemma RegionBounds(map0: seq<Region>, i: nat)
    requires GoodMap(map0) && i < |map0|
    ensures End(map0[i]) <= SPACE
  {
  }

  lemma BehindRegion(map0: seq<Region>, i: nat, j: nat, a: nat)
    requires GoodMap(map0) && j <= i < |map0| && a == End(map0[i])
    ensures !Contains(map0[j], a)
  {
  }

  lemma NothingReached(map0: seq<Region>, a: nat, n: nat, writable: bool)
    requires forall j :: 0 <= j < |map0| ==> !Contains(map0[j], a)
    ensures Reach(map0, a, n, writable) == 0
  {
  }

  lemma ReadOnlyStops(map0: seq<Region>, i: nat, addr: nat, len: nat, done: nat)
    requires GoodMap(map0) && i < |map0| && Contains(map0[i], addr + done) && map0[i].readOnly
    requires done <= len && (done > 0 ==> done < len)
    requires Reach(map0, addr, len, true) == done + Reach(map0, addr + done, len - done, true)
    ensures Reach(map0, addr, len, true) == done && StopsAtReadOnly(map0, addr, len)
  {
    NoOtherRegion(map0, i, addr + done);
  }

  /** The range ends in the writable region i. */
  lemma EndStops(map0: seq<Region>, i: nat, addr: nat, len: nat, done: nat)
    requires GoodMap(map0) && i < |map0| && Contains(map0[i], addr + done) && !map0[i].readOnly && done <= len
    requires Reach(map0, addr, len, true) == len && (len == 0 ==> done == 0)
    ensures !StopsAtReadOnly(map0, addr, len)
  {
    NoOtherRegion(map0, i, addr + done);
  }

  lemma NoRegionNoStop(map0: seq<Region>, addr: nat, len: nat, done: nat)
    requires Reach(map0, addr, len, true) == done && forall j :: 0 <= j < |map0| ==> !Contains(map0[j], addr + done)
    ensures !StopsAtReadOnly(map0, addr, len)
  {
  }

  lemma OverlayMore(m: seq<byte>, at: nat, src: seq<byte>, ptr: nat, n: nat, k: nat)
    requires ptr + n + k <= |src| && at + n + k <= |m|
    ensures Overlay(Overlay(m, at, src[ptr..ptr + n]), at + n, src[ptr + n..ptr + n + k])
      == Overlay(m, at, src[ptr..ptr + n + k])
  {
    OverlayTwice(m, at, src[ptr..ptr + n], src[ptr + n..ptr + n + k]);
    assert src[ptr..ptr + n] + src[ptr + n..ptr + n + k] == src[ptr..ptr + n + k];
  }

  /** Memory after the first n bytes of src have been written at addr. */
  function Written(m: seq<byte>, addr: nat, src: seq<byte>, n: nat): seq<byte>
    requires n <= |src| && (n > 0 ==> addr + n <= |m|)
  {
    if n == 0 then m else Overlay(m, addr, src[..n])
  }

  lemma NothingWritten(m: seq<byte>, addr: nat, src: seq<byte>)
    ensures Written(m, addr, src, 0) == m
  {
  }

  lemma WrittenOn(m: seq<byte>, addr: nat, src: seq<byte>, n: nat, k: nat)
    requires n + k <= |src| && addr + n + k <= |m|
    ensures Overlay(Written(m, addr, src, n), addr + n, src[n..n + k]) == Written(m, addr, src, n + k)
  {
    hide Overlay;
    assert src[..0] == [];
    OverlayMore(m, addr, src, 0, n, k);
    assert src[0..n] == src[..n] && src[0..n + k] == src[..n + k];
    OverlayNothing(m, addr, src[0..0]);
  }

  /** The first n bytes of d are those of the memory from a on. */
  predicate Copied(d: seq<byte>, m: seq<byte>, a: int, n: int) {
    0 <= n <= |d| && (n > 0 ==> 0 <= a && a + n <= |m|) && forall k :: 0 <= k < n ==> d[k] == m[a + k]
  }

  lemma NothingCopied(d: seq<byte>, m: seq<byte>, a: int)
    ensures Copied(d, m, a, 0)
  {
  }

  class Target {
    var mem: seq<byte>
    var calls: seq<Call>

    ghost predicate Valid()
      reads this
    {
      |mem| == SPACE
    }

    constructor (mem: seq<byte>)
      requires |mem| == SPACE
      ensures Valid() && this.mem == mem && calls == []
    {
      this.mem, calls := mem, [];
    }

    // ---------------------------------------------------------------- exact drivers

    method DrvRead(at: nat, n: nat, dst: array<byte>, ptr: nat) returns (ret: int)
      requires Valid() && ptr <= at && at + n <= SPACE && ptr + n <= dst.Length && Copied(dst[..], mem, at - ptr, ptr)
      modifies this`calls, dst
      ensures ret == n && calls == old(calls) + [Call(at, n, ret)]
      ensures Copied(dst[..], mem, at - ptr, ptr + n)
    {
      forall k | 0 <= k < n { dst[ptr + k] := mem[at + k]; }
      assert forall k :: ptr <= k < ptr + n ==> dst[k] == mem[at + (k - ptr)];
      ret := n;
      calls := calls + [Call(at, n, ret)];
    }

    method DrvWrite(at: nat, data: seq<byte>) returns (ret: int)
      requires Valid() && at + |data| <= SPACE
      modifies this
      ensures Valid() && ret == |data| && calls == old(calls) + [Call(at, |data|, ret)]
      ensures mem == Overlay(old(mem), at, data)
    {
      mem := Overlay(mem, at, data);
      ret := |data|;
      calls := calls + [Call(at, |data|, ret)];
    }

    // ---------------------------------------------------------------- one region

    /** The loop over the blocks of the region that holds the address reached, ptr bytes into the range. */
    method ReadBlocks(map0: seq<Region>, i: nat, addr0: nat, dst: array<byte>, ptr: nat, rem: nat,
                      ghost was: seq<Call>)
      returns (got: nat)
      requires Valid() && i < |map0| && GoodRegion(map0[i]) && Contains(map0[i], addr0 + ptr) && ptr + rem <= dst.Length
      requires Added(map0, was, calls, false) && Copied(dst[..], mem, addr0, ptr)
      modifies this`calls, dst
      ensures got == Min(End(map0[i]) - (addr0 + ptr), rem)
      ensures Copied(dst[..], mem, addr0, ptr + got) && Added(map0, was, calls, false)
    {
      hide AtBlock, Added, InOneBlock, Contains, End, Copied;
      var e := map0[i];
      var addr := addr0 + ptr;
      ghost var b, left := FirstBlock(e, addr);
      var offs := addr - e.base;
      var blk := (addr - e.start) / e.size;
      var n := e.size - (addr - (e.start + blk * e.size));
      got := 0;
      assert blk == b && n == left;
      while blk < e.count
        invariant blk <= e.count && got <= rem && n >= 0 && e.base + offs == addr + got <= End(e)
        invariant AtBlock(e, blk, addr + got, n)
        invariant Copied(dst[..], mem, addr0, ptr + got)
        invariant Added(map0, was, calls, false)
      {
        var k := if n > rem - got then rem - got else n;
        CallFits(map0, i, blk, addr + got, n, k, false);
        StepBlock(e, blk, addr + got, n);
        OneAdded(map0, was, calls, Call(addr + got, k, k), false);
        var ret := DrvRead(e.base + offs, k, dst, ptr + got);
        got := got + ret;
        if got == rem { return; }
        offs := offs + ret;
        n := e.size;
        blk := blk + 1;
      }
      RegionDone(e, addr + got, n);
    }

    /** `ice_mem_read`: the longest mapped part of the range, as the flat memory holds it. */
    method MemRead(map0: seq<Region>, addr: nat, dst: array<byte>, len: nat) returns (ret: int)
      requires Valid() && GoodMap(map0) && len <= dst.Length
      modifies this`calls, dst
      ensures ret == Reach(map0, addr, len, false) && Copied(dst[..], mem, addr, ret)
      ensures Added(map0, old(calls), calls, false)
    {
      hide Contains, Added, Reach, Size, End, Copied, GoodMap, GoodRegion;
      var done: nat := 0;
      NothingAdded(map0, calls, false);
      NothingCopied(dst[..], mem, addr);
      for i := 0 to |map0|
        invariant done <= len && (done > 0 ==> done < len) && Copied(dst[..], mem, addr, done)
        invariant Reach(map0, addr, len, false) == done + Reach(map0, addr + done, len - done, false)
        invariant forall j :: 0 <= j < i ==> !Contains(map0[j], addr + done)
        invariant Added(map0, old(calls), calls, false)
      {
        var e := map0[i];
        if Size(e) == 0 || addr + done < e.start || addr + done > End(e) - 1 {
          NotIn(e, addr + done);
          continue;
        }
        IsIn(e, addr + done);
        GoodAt(map0, i);
        var got := ReadBlocks(map0, i, addr, dst, done, len - done, old(calls));
        RegionReached(map0, i, addr + done, len - done, got, false);
        done := done + got;
        if done == len { return len; }
      }
      NothingReached(map0, addr + done, len - done, false);
      ret := done;
    }

    // ---------------------------------------------------------------- writing

    method WriteBlocks(map0: seq<Region>, i: nat, addr: nat, src: seq<byte>, ptr: nat, ghost was: seq<Call>)
      returns (put: nat)
      requires Valid() && i < |map0| && GoodRegion(map0[i]) && Contains(map0[i], addr) && !map0[i].readOnly
      requires ptr <= |src|
      requires Added(map0, was, calls, true)
      modifies this
      ensures Valid() && put == Min(End(map0[i]) - addr, |src| - ptr)
      ensures mem == Overlay(old(mem), addr, src[ptr..ptr + put])
      ensures Added(map0, was, calls, true)
    {
      hide AtBlock, Added, InOneBlock, Contains, Overlay;
      var e := map0[i];
      var rem := |src| - ptr;
      ghost var b, left := FirstBlock(e, addr);
      var offs := addr - e.base;
      var blk := (addr - e.start) / e.size;
      var n := e.size - (addr - (e.start + blk * e.size));
      put := 0;
      assert blk == b && n == left;
      OverlayNothing(mem, addr, src[ptr..ptr]);
      while blk < e.count
        invariant blk <= e.count && put <= rem && n >= 0 && e.base + offs == addr + put <= End(e) && Valid()
        invariant AtBlock(e, blk, addr + put, n)
        invariant mem == Overlay(old(mem), addr, src[ptr..ptr + put])
        invariant Added(map0, was, calls, true)
      {
        var k := if n > rem - put then rem - put else n;
        CallFits(map0, i, blk, addr + put, n, k, true);
        StepBlock(e, blk, addr + put, n);
        OneAdded(map0, was, calls, Call(addr + put, k, k), true);
        OverlayMore(old(mem), addr, src, ptr, put, k);
        var ret := DrvWrite(e.base + offs, src[ptr + put..ptr + put + k]);
        put := put + ret;
        if put == rem { return; }
        offs := offs + ret;
        n := e.size;
        blk := blk + 1;
      }
      RegionDone(e, addr + put, n);
    }

    /** `ice_mem_write`: what is written is the longest part of the range that is mapped and writable; -1 if
        it ends at a read-only region, which no driver call touches. */
    method MemWrite(map0: seq<Region>, addr: nat, src: seq<byte>) returns (ret: int)
      requires Valid() && GoodMap(map0)
      modifies this
      ensures Valid()
      ensures var q := Reach(map0, addr, |src|, true);
        && ret == (if StopsAtReadOnly(map0, addr, |src|) then -1 else q)
        && (q > 0 ==> addr + q <= SPACE) && mem == Written(old(mem), addr, src, q)
      ensures Added(map0, old(calls), calls, true)
    {
      hide Contains, Added, Reach, Size, End, Overlay, Written, StopsAtReadOnly, GoodMap, GoodRegion;
      var len := |src|;
      var done: nat := 0;
      NothingAdded(map0, calls, true);
      NothingWritten(mem, addr, src);
      for i := 0 to |map0|
        invariant Valid() && done <= len && (done > 0 ==> done < len && addr + done <= SPACE)
        invariant mem == Written(old(mem), addr, src, done)
        invariant Reach(map0, addr, len, true) == done + Reach(map0, addr + done, len - done, true)
        invariant forall j :: 0 <= j < i ==> !Contains(map0[j], addr + done)
        invariant Added(map0, old(calls), calls, true)
      {
        var e := map0[i];
        if Size(e) == 0 || addr + done < e.start || addr + done > End(e) - 1 {
          NotIn(e, addr + done);
          continue;
        }
        IsIn(e, addr + done);
        GoodAt(map0, i);
        if e.readOnly {
          ReadOnlyStops(map0, i, addr, len, done);
          return -1;
        }
        var put := WriteBlocks(map0, i, addr + done, src, done, old(calls));
        RegionReached(map0, i, addr + done, len - done, put, true);
        WrittenOn(old(mem), addr, src, done, put);
        done := done + put;
        if done == len {
          EndStops(map0, i, addr, len, done - put);
          return len;
        }
      }
      NothingReached(map0, addr + done, len - done, true);
      NoRegionNoStop(map0, addr, len, done);
      ret := done;
    }

    // ---------------------------------------------------------------- erasing

    /** A driver asked to erase n bytes may fail, fall short, or go further. */
    method DrvErase(at: nat, n: nat) returns (ret: int)
      modifies this`calls
      ensures calls == old(calls) + [Call(at, n, ret)]
    {
      ret := *;
      calls := calls + [Call(at, n, ret)];
    }

    /** The loop over the blocks of the region that holds addr; `prior` are the calls that came before. */
    method EraseBlocks(map0: seq<Region>, i: nat, addr0: nat, rem0: nat,
                       ghost prior: seq<Call>, ghost mine0: seq<Call>, ghost start: int)
      returns (out: Progress, ghost mine: seq<Call>)
      requires i < |map0| && GoodRegion(map0[i]) && Contains(map0[i], addr0) && !map0[i].readOnly
      requires calls == prior + mine0 && Tiled(mine0, start) && start + Advanced(mine0) == addr0
      modifies this`calls
      ensures calls == prior + mine && Conserves(out, addr0, rem0, Advanced(mine0), Advanced(mine))
      ensures Tiled(mine, start)
      ensures Exact(mine) ==> Exact(mine0) && out == ExactProgress(map0[i], addr0, rem0)
      ensures Exact(mine) && AllInOneBlock(map0, mine0, true) ==> AllInOneBlock(map0, mine, true)
    {
      hide AtBlock, AllInOneBlock, InOneBlock, Contains, Exact, Tiled, Advanced, End;
      var e := map0[i];
      var addr, rem: int := addr0, rem0;
      ghost var b, left := FirstBlock(e, addr);
      var offs := addr - e.base;
      var blk: nat := (addr - e.start) / e.size;
      var n := e.size - (addr - (e.start + blk * e.size));
      mine := mine0;
      BlockEnds(e, blk, addr, n);
      while blk < e.count
        invariant e.size > 0 && n > 0 && addr >= addr0 && e.base + offs == addr && addr + rem == addr0 + rem0
        invariant addr > addr0 ==> rem > 0
        invariant addr == addr0 ==> blk == b
        invariant calls == prior + mine && Advanced(mine) == Advanced(mine0) + (addr - addr0)
        invariant Tiled(mine, start)
        invariant Exact(mine) ==> Exact(mine0) && blk <= e.count && addr <= End(e) && AtBlock(e, blk, addr, n)
        invariant Exact(mine) && AllInOneBlock(map0, mine0, true) ==> AllInOneBlock(map0, mine, true)
      {
        var k := if n > rem then rem else n;
        var ret := DrvErase(e.base + offs, k);
        ghost var c := Call(addr, k, ret);
        assert prior + mine + [c] == prior + (mine + [c]);
        Noted(mine, c);
        TiledOn(mine, c, start);
        if Exact(mine) {
          CallFits(map0, i, blk, addr, n, k, true);
          StepBlock(e, blk, addr, n);
          BlockEnds(e, blk, addr, n);
          if AllInOneBlock(map0, mine, true) { OneMoreCall(map0, mine, c, true); }
        }
        mine := mine + [c];
        if ret < 0 { return Failed(ret), mine; }
        if ret != k && ret == 0 { return Left(addr, rem), mine; }
        if ret >= rem { return Finished(ret - rem), mine; }
        n := e.size;
        blk, rem, addr, offs := PassOver(blk, rem, addr, offs, ret, n);
      }
      if Exact(mine) { RegionDone(e, addr, n); }
      out := Left(addr, rem);
    }

    /** `ice_mem_erase`: bytes advanced and bytes remaining always add up, so that what is returned is what
        the drivers have done in all, also if one goes too far, and each call starts where those before it
        have got to. If each does exactly what it is asked for, the calls so tile the longest writable part
        of the range, block by block. */
    method MemErase(map0: seq<Region>, addr0: nat, len: nat) returns (ret: int, ghost mine: seq<Call>)
      requires GoodMap(map0)
      modifies this`calls
      ensures calls == old(calls) + mine && Tiled(mine, addr0)
      ensures ret >= 0 ==> ret == Advanced(mine)
      ensures Exact(mine) ==> AllInOneBlock(map0, mine, true)
      ensures Exact(mine) ==> ret == if StopsAtReadOnly(map0, addr0, len) then -1 else Reach(map0, addr0, len, true)
    {
      hide Contains, AllInOneBlock, Reach, StopsAtReadOnly, Exact, Tiled, Advanced, End;
      var addr, rem := addr0, len;
      mine := [];
      NoCalls(map0);
      assert calls + [] == calls;
      for i := 0 to |map0|
        invariant addr >= addr0 && addr + rem == addr0 + len && (addr > addr0 ==> rem > 0)
        invariant calls == old(calls) + mine && Advanced(mine) == addr - addr0 && Tiled(mine, addr0)
        invariant Exact(mine) ==> AllInOneBlock(map0, mine, true)
        invariant Exact(mine) ==> Reach(map0, addr0, len, true) == (addr - addr0) + Reach(map0, addr, rem, true)
        invariant Exact(mine) ==> forall j :: 0 <= j < i ==> !Contains(map0[j], addr)
      {
        var e := map0[i];
        if Size(e) == 0 || addr < e.start || addr > End(e) - 1 {
          NotIn(e, addr);
          continue;
        }
        IsIn(e, addr);
        if e.readOnly {
          if Exact(mine) { ReadOnlyStops(map0, i, addr0, len, addr - addr0); }
          return -1, mine;
        }
        ghost var before := mine;
        var out;
        out, mine := EraseBlocks(map0, i, addr, rem, old(calls), mine, addr0);
        if Exact(mine) { RegionWalked(map0, i, addr, rem, out); }
        match out
        case Failed(r) =>
          return r, mine;
        case Finished(extra) =>
          if Exact(mine) { EndStops(map0, i, addr0, len, addr - addr0); }
          return len + extra, mine;
        case Left(a, r) =>
          addr, rem := a, r;
      }
      if Exact(mine) {
        NothingReached(map0, addr, rem, true);
        NoRegionNoStop(map0, addr0, len, addr - addr0);
      }
      ret := len - rem;
    }
  }

  lemma BlockEnds(e: Region, blk: nat, a: nat, n: nat)
    requires AtBlock(e, blk, a, n)
    ensures blk < e.count ==> 0 < n <= e.size
    ensures a <= End(e)
  {
  }

  lemma {:induction false} Noted(calls: seq<Call>, c: Call)
    ensures Advanced(calls + [c]) == Advanced(calls) + c.ret
    ensures Exact(calls + [c]) <==> Exact(calls) && c.ret == c.n
  {
    var cs := calls + [c];
    assert cs[..|cs| - 1] == calls && cs[|cs| - 1] == c;
    if Exact(cs) {
      assert forall k :: 0 <= k < |calls| ==> calls[k] == cs[k];
    }
  }

  lemma TiledOn(calls: seq<Call>, c: Call, a: int)
    requires Tiled(calls, a) && c.at == a + Advanced(calls)
    ensures Tiled(calls + [c], a)
  {
    hide Advanced;
    var cs := calls + [c];
    forall k | 0 <= k < |cs|
      ensures cs[k].at == a + Advanced(cs[..k])
    {
      assert cs[..k] == calls[..k];
      assert calls[..|calls|] == calls;
    }
  }

  predicate Covers(c: Call, x: int) {
    c.at <= x < c.at + c.n
  }

  lemma {:induction false} AdvancedGrows(calls: seq<Call>, j: nat, k: nat)
    requires Exact(calls) && j <= k <= |calls|
    ensures Advanced(calls[..j]) <= Advanced(calls[..k])
    decreases k
  {
    if j < k {
      AdvancedGrows(calls, j, k - 1);
      assert calls[..k] == calls[..k - 1] + [calls[k - 1]];
      Noted(calls[..k - 1], calls[k - 1]);
    }
  }

  /** A call covers what lies between where it starts and where the next one would. */
  lemma CoversFromTo(calls: seq<Call>, a: int, k: nat, x: int)
    requires Tiled(calls, a) && Exact(calls) && k < |calls|
    ensures Covers(calls[k], x) <==> a + Advanced(calls[..k]) <= x < a + Advanced(calls[..k + 1])
  {
    assert calls[..k + 1] == calls[..k] + [calls[k]];
    Noted(calls[..k], calls[k]);
  }

  lemma {:induction false} SomeCallCovers(calls: seq<Call>, a: int, n: nat, x: int) returns (k: nat)
    requires Tiled(calls, a) && Exact(calls) && n <= |calls| && a <= x < a + Advanced(calls[..n])
    ensures k < n && Covers(calls[k], x)
    decreases n
  {
    if n == 0 {
      assert false;
    } else if x < a + Advanced(calls[..n - 1]) {
      k := SomeCallCovers(calls, a, n - 1, x);
    } else {
      k := n - 1;
      CoversFromTo(calls, a, k, x);
    }
  }

  /** Exact calls that tile cover the addresses up to where they get to, each once, and no others. */
  lemma TiledCovers(calls: seq<Call>, a: int, x: int)
    requires Tiled(calls, a) && Exact(calls)
    ensures a <= x < a + Advanced(calls) <==> exists k :: 0 <= k < |calls| && Covers(calls[k], x)
    ensures forall j, k :: 0 <= j < k < |calls| ==> !(Covers(calls[j], x) && Covers(calls[k], x))
  {
    hide Advanced, Tiled, Exact, Covers;
    assert calls[..|calls|] == calls && calls[..0] == [];
    NoCalls([]);
    if a <= x < a + Advanced(calls) {
      var k := SomeCallCovers(calls, a, |calls|, x);
    }
    forall k | 0 <= k < |calls| && Covers(calls[k], x)
      ensures a <= x < a + Advanced(calls)
    {
      CoversFromTo(calls, a, k, x);
      AdvancedGrows(calls, 0, k);
      AdvancedGrows(calls, k + 1, |calls|);
    }
    forall j, k | 0 <= j < k < |calls|
      ensures !(Covers(calls[j], x) && Covers(calls[k], x))
    {
      CoversFromTo(calls, a, j, x);
      CoversFromTo(calls, a, k, x);
      AdvancedGrows(calls, j + 1, k);
    }
  }

  lemma NoCalls(map0: seq<Region>)
    ensures Advanced([]) == 0 && Exact([]) && AllInOneBlock(map0, [], true)
    ensures forall a :: Tiled([], a)
  {
  }

  lemma RegionWalked(map0: seq<Region>, i: nat, a: nat, n: nat, out: Progress)
    requires GoodMap(map0) && i < |map0| && Contains(map0[i], a) && !map0[i].readOnly
    requires out == ExactProgress(map0[i], a, n)
    ensures out.Finished? ==> Reach(map0, a, n, true) == n && out.extra == 0
    ensures out.Left? ==>
      && out.addr == a + (n - out.rem) && out.rem < n
      && Reach(map0, a, n, true) == (n - out.rem) + Reach(map0, out.addr, out.rem, true)
      && forall j :: 0 <= j < i + 1 ==> !Contains(map0[j], out.addr)
    ensures !out.Failed?
  {
    RegionReached(map0, i, a, n, Min(End(map0[i]) - a, n), true);
  }

  /** The end of a turn of the erase loop: whole blocks that the driver has erased in passing are skipped. */
  method PassOver(blk0: nat, rem0: int, addr0: int, offs0: int, ret0: int, n: int)
    returns (blk: nat, rem: int, addr: int, offs: int)
    requires n > 0 && ret0 >= 0
    ensures blk > blk0 && rem == rem0 - ret0 && addr == addr0 + ret0 && offs == offs0 + ret0
    ensures ret0 <= n ==> blk == blk0 + 1
  {
    var ret := ret0;
    blk, rem, addr, offs := blk0, rem0, addr0, offs0;
    while ret > n
      invariant blk >= blk0 && 0 <= ret <= ret0
      invariant rem - ret == rem0 - ret0 && addr + ret == addr0 + ret0 && offs + ret == offs0 + ret0
      invariant ret0 <= n ==> ret == ret0 && blk == blk0
    {
      blk := blk + 1;
      rem := rem - n;
      addr := addr + n;
      offs := offs + n;
      ret := ret - n;
    }
    rem := rem - ret;
    addr := addr + ret;
    offs := offs + ret;
    blk := blk + 1;
  }

  /** A write or erase of len bytes meets a read-only region where the writable part of the range ends. An empty
      one is refused there, too. */
  predicate StopsAtReadOnly(map0: seq<Region>, addr: nat, len: nat) {
    var q := Reach(map0, addr, len, true);
    (q < len || len == 0) && exists i :: 0 <= i < |map0| && Contains(map0[i], addr + q) && map0[i].readOnly
  }
}
