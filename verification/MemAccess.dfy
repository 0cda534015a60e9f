/**
 * The default memory operations of a target driver: a range of bytes is read, written or cleared with
 * naturally aligned 8, 16 and 32-bit little-endian accesses. Addresses wrap at 2^32.
 */
module MemAccess {
  import opened Bytes

  const SPACE := 0x1_0000_0000

  /** One access to the target. */
  datatype Access = Access(pos: nat, width: nat)

  predicate Aligned(a: Access) {
    a.pos < SPACE && (a.width == 1 || a.width == 2 || a.width == 4) && a.pos % a.width == 0
  }

  /** The accesses cover len bytes from pos on, each byte once, in ascending order. */
  predicate Tiles(log: seq<Access>, pos: nat, len: nat) {
    if log == [] then len == 0
    else
      && log[0].pos == pos && Aligned(log[0]) && log[0].width <= len
      && Tiles(log[1..], (pos + log[0].width) % SPACE, len - log[0].width)
  }

  lemma OnAndOn(pos: nat, w: nat, len: nat)
    requires pos < SPACE && w <= 4 && w <= len
    ensures ((pos + w) % SPACE + (len - w)) % SPACE == (pos + len) % SPACE
  {
    if pos + w >= SPACE {
      assert (pos + w) % SPACE == pos + w - SPACE;
      assert (pos + len - SPACE) % SPACE == (pos + len) % SPACE;
    }
  }

  lemma {:induction false} TilesThen(log: seq<Access>, pos: nat, len: nat, a: Access)
    requires pos < SPACE && Tiles(log, pos, len) && Aligned(a) && a.pos == (pos + len) % SPACE
    ensures Tiles(log + [a], pos, len + a.width)
    decreases |log|
  {
    hide Aligned;
    AlignedIs(a);
    if log == [] {
      assert log + [a] == [a] && [a][1..] == [];
    } else {
      var w := log[0].width;
      AlignedIs(log[0]);
      OnAndOn(pos, w, len);
      TilesThen(log[1..], (pos + w) % SPACE, len - w, a);
      assert (log + [a])[0] == log[0] && (log + [a])[1..] == log[1..] + [a];
    }
  }

  lemma AlignedIs(a: Access)
    requires Aligned(a)
    ensures a.pos < SPACE && 1 <= a.width <= 4
  {
  }

  // ---------------------------------------------------------------- byte by byte

  function ReadBytes(m: seq<byte>, pos: nat, len: nat): (data: seq<byte>)
    requires |m| == SPACE
    ensures |data| == len && forall i :: 0 <= i < len ==> data[i] == m[(pos + i) % SPACE]
  {
    seq(len, i requires 0 <= i < len => m[(pos + i) % SPACE])
  }

  /** How far behind pos an address is. */
  function Distance(pos: nat, a: nat): (d: nat)
    requires pos < SPACE && a < SPACE
    ensures d < SPACE && (pos + d) % SPACE == a
  {
    if a >= pos then a - pos else a - pos + SPACE
  }

  function WriteBytes(m: seq<byte>, pos: nat, data: seq<byte>): (r: seq<byte>)
    requires |m| == SPACE && pos < SPACE && |data| <= SPACE
    ensures |r| == SPACE
    ensures forall a :: 0 <= a < SPACE ==> r[a] == if Distance(pos, a) < |data| then data[Distance(pos, a)] else m[a]
  {
    seq(SPACE, a requires 0 <= a < SPACE => if Distance(pos, a) < |data| then data[Distance(pos, a)] else m[a])
  }

  function Zeros(n: nat): (z: seq<byte>)
    ensures |z| == n && forall i :: 0 <= i < n ==> z[i] == 0
  {
    seq(n, _ => 0)
  }

  lemma DistanceBack(pos: nat, i: nat)
    requires pos < SPACE && i < SPACE
    ensures Distance(pos, (pos + i) % SPACE) == i
  {
  }

  lemma WriteThenRead(m: seq<byte>, pos: nat, data: seq<byte>)
    requires |m| == SPACE && pos < SPACE && |data| <= SPACE
    ensures ReadBytes(WriteBytes(m, pos, data), pos, |data|) == data
  {
    hide Distance;
    var w := WriteBytes(m, pos, data);
    forall i | 0 <= i < |data|
      ensures ReadBytes(w, pos, |data|)[i] == data[i]
    {
      DistanceBack(pos, i);
      assert w[(pos + i) % SPACE] == data[i];
    }
  }

  lemma FurtherOn(pos: nat, n: nat, a: nat)
    requires pos < SPACE && a < SPACE && n <= SPACE
    ensures var d := Distance(pos, a);
      Distance((pos + n) % SPACE, a) == if d >= n then d - n else d - n + SPACE
  {
  }

  lemma WriteInParts(m: seq<byte>, pos: nat, a: seq<byte>, b: seq<byte>)
    requires |m| == SPACE && pos < SPACE && |a| + |b| <= SPACE
    ensures WriteBytes(WriteBytes(m, pos, a), (pos + |a|) % SPACE, b) == WriteBytes(m, pos, a + b)
  {
    hide Distance;
    var x, y := WriteBytes(WriteBytes(m, pos, a), (pos + |a|) % SPACE, b), WriteBytes(m, pos, a + b);
    forall k | 0 <= k < SPACE
      ensures x[k] == y[k]
    {
      DistanceIn(pos, k);
      FurtherOn(pos, |a|, k);
    }
  }

  lemma DistanceIn(pos: nat, a: nat)
    requires pos < SPACE && a < SPACE
    ensures Distance(pos, a) < SPACE
  {
  }

  lemma WriteNothing(m: seq<byte>, pos: nat)
    requires |m| == SPACE && pos < SPACE
    ensures WriteBytes(m, pos, []) == m
  {
  }

  lemma ReadInParts(m: seq<byte>, pos: nat, n: nat, k: nat)
    requires |m| == SPACE
    ensures ReadBytes(m, pos, n + k) == ReadBytes(m, pos, n) + ReadBytes(m, (pos + n) % SPACE, k)
  {
    var x, y, z := ReadBytes(m, pos, n + k), ReadBytes(m, pos, n), ReadBytes(m, (pos + n) % SPACE, k);
    forall i | n <= i < n + k
      ensures x[i] == z[i - n]
    {
      Further(pos, n, i - n);
    }
    assert forall i :: 0 <= i < n ==> x[i] == y[i];
  }

  lemma Further(pos: nat, n: nat, i: nat)
    ensures ((pos + n) % SPACE + i) % SPACE == (pos + n + i) % SPACE
  {
  }

  // ---------------------------------------------------------------- the primitives

  /** The bytes of a little-endian word, lowest first, and the word of such bytes. */
  function Bytes2(v: int): seq<byte>
    requires 0 <= v < 0x1_0000
  {
    [v % 256, v / 256]
  }

  function Word2(b0: int, b1: int): int {
    b0 + 256 * b1
  }

  function Bytes4(v: int): seq<byte>
    requires 0 <= v < SPACE
  {
    [v % 256, v / 256 % 256, v / 256 / 256 % 256, v / 256 / 256 / 256]
  }

  function Word4(b0: int, b1: int, b2: int, b3: int): int {
    b0 + 256 * (b1 + 256 * (b2 + 256 * b3))
  }

  lemma LowByte(b: byte, rest: nat)
    ensures (b + 256 * rest) % 256 == b && (b + 256 * rest) / 256 == rest
  {
  }

  lemma Bytes2Of(b0: byte, b1: byte)
    ensures 0 <= Word2(b0, b1) < 0x1_0000 && Bytes2(Word2(b0, b1)) == [b0, b1]
  {
    LowByte(b0, b1);
  }

  lemma Bytes4Of(b0: byte, b1: byte, b2: byte, b3: byte)
    ensures 0 <= Word4(b0, b1, b2, b3) < SPACE && Bytes4(Word4(b0, b1, b2, b3)) == [b0, b1, b2, b3]
  {
    LowByte(b0, b1 + 256 * (b2 + 256 * b3));
    LowByte(b1, b2 + 256 * b3);
    LowByte(b2, b3);
  }

  class Target {
    var mem: seq<byte>
    var log: seq<Access>

    ghost predicate Valid()
      reads this
    {
      |mem| == SPACE
    }

    constructor (mem: seq<byte>)
      requires |mem| == SPACE
      ensures Valid() && this.mem == mem && log == []
    {
      this.mem, log := mem, [];
    }

    method Rd8(pos: nat) returns (v: byte)
      requires Valid() && pos < SPACE
      modifies this`log
      ensures [v] == ReadBytes(mem, pos, 1) && log == old(log) + [Access(pos, 1)]
    {
      v := mem[pos];
      log := log + [Access(pos, 1)];
    }

    method Rd16(pos: nat) returns (v: int)
      requires Valid() && pos < SPACE && pos % 2 == 0
      modifies this`log
      ensures 0 <= v < 0x1_0000 && Bytes2(v) == ReadBytes(mem, pos, 2) && log == old(log) + [Access(pos, 2)]
    {
      v := Word2(mem[pos], mem[pos + 1]);
      Bytes2Of(mem[pos], mem[pos + 1]);
      log := log + [Access(pos, 2)];
    }

    method Rd32(pos: nat) returns (v: int)
      requires Valid() && pos < SPACE && pos % 4 == 0
      modifies this`log
      ensures 0 <= v < SPACE && Bytes4(v) == ReadBytes(mem, pos, 4) && log == old(log) + [Access(pos, 4)]
    {
      v := Word4(mem[pos], mem[pos + 1], mem[pos + 2], mem[pos + 3]);
      Bytes4Of(mem[pos], mem[pos + 1], mem[pos + 2], mem[pos + 3]);
      log := log + [Access(pos, 4)];
    }

    method Wr8(pos: nat, v: byte)
      requires Valid() && pos < SPACE
      modifies this
      ensures Valid() && mem == WriteBytes(old(mem), pos, [v]) && log == old(log) + [Access(pos, 1)]
    {
      mem := mem[pos := v];
      log := log + [Access(pos, 1)];
    }

    method Wr16(pos: nat, v: int)
      requires Valid() && pos < SPACE && pos % 2 == 0 && 0 <= v < 0x1_0000
      modifies this
      ensures Valid() && mem == WriteBytes(old(mem), pos, Bytes2(v)) && log == old(log) + [Access(pos, 2)]
    {
      mem := mem[pos := v % 256][pos + 1 := v / 256];
      log := log + [Access(pos, 2)];
    }

    method Wr32(pos: nat, v: int)
      requires Valid() && pos < SPACE && pos % 4 == 0 && 0 <= v < SPACE
      modifies this
      ensures Valid() && mem == WriteBytes(old(mem), pos, Bytes4(v)) && log == old(log) + [Access(pos, 4)]
    {
      mem := mem[pos := v % 256][pos + 1 := v / 256 % 256];
      mem := mem[pos + 2 := v / 256 / 256 % 256][pos + 3 := v / 256 / 256 / 256];
      log := log + [Access(pos, 4)];
    }

    // ---------------------------------------------------------------- ranges

    method Get1(buf: array<byte>, ptr: nat, pos: nat)
      requires Valid() && pos < SPACE && ptr < buf.Length
      modifies this`log, buf
      ensures buf[..ptr + 1] == old(buf[..ptr]) + ReadBytes(mem, pos, 1) && log == old(log) + [Access(pos, 1)]
    {
      var v := Rd8(pos);
      buf[ptr] := v;
      assert buf[..ptr + 1] == old(buf[..ptr]) + [v];
    }

    method Get2(buf: array<byte>, ptr: nat, pos: nat)
      requires Valid() && pos < SPACE && pos % 2 == 0 && ptr + 2 <= buf.Length
      modifies this`log, buf
      ensures buf[..ptr + 2] == old(buf[..ptr]) + ReadBytes(mem, pos, 2) && log == old(log) + [Access(pos, 2)]
    {
      var v := Rd16(pos);
      buf[ptr], buf[ptr + 1] := v % 256, v / 256;
      assert buf[..ptr + 2] == old(buf[..ptr]) + Bytes2(v);
    }

    method Get4(buf: array<byte>, ptr: nat, pos: nat)
      requires Valid() && pos < SPACE && pos % 4 == 0 && ptr + 4 <= buf.Length
      modifies this`log, buf
      ensures buf[..ptr + 4] == old(buf[..ptr]) + ReadBytes(mem, pos, 4) && log == old(log) + [Access(pos, 4)]
    {
      var v := Rd32(pos);
      ghost var b := Bytes4(v);
      buf[ptr], buf[ptr + 1] := v % 256, v / 256 % 256;
      buf[ptr + 2], buf[ptr + 3] := v / 256 / 256 % 256, v / 256 / 256 / 256;
      assert buf[..ptr + 4] == old(buf[..ptr]) + b;
    }

    /** One access of the width given, stored behind what has been read so far. */
    method Get(buf: array<byte>, cnt: nat, pos: nat, w: nat, ghost base: nat, ghost log0: seq<Access>)
      returns (next: nat)
      requires Valid() && base < SPACE && (w == 1 || w == 2 || w == 4) && pos % w == 0 && cnt + w <= buf.Length
      requires Progress(log0, log, base, pos, cnt) && buf[..cnt] == ReadBytes(mem, base, cnt)
      modifies this`log, buf
      ensures Progress(log0, log, base, next, cnt + w) && buf[..cnt + w] == ReadBytes(mem, base, cnt + w)
      ensures next < SPACE && Realigned(pos, w, next)
    {
      hide Tiles, Aligned, ReadBytes, Progress;
      ProgressStep(log0, log, base, pos, cnt, w);
      ReadInParts(mem, base, cnt, w);
      if w == 1 {
        Get1(buf, cnt, pos);
      } else if w == 2 {
        Get2(buf, cnt, pos);
      } else {
        Get4(buf, cnt, pos);
      }
      next := (pos + w) % SPACE;
    }

    /** Up to the first multiple of four. */
    method GetHead(base: nat, buf: array<byte>, len: nat) returns (cnt: nat, pos: nat)
      requires Valid() && base < SPACE && len < SPACE && len <= buf.Length
      modifies this`log, buf
      ensures cnt <= len && (len - cnt < 2 || pos % 4 == 0) && pos < SPACE
      ensures Progress(old(log), log, base, pos, cnt) && buf[..cnt] == ReadBytes(mem, base, cnt)
    {
      hide ReadBytes, Progress;
      pos := base;
      cnt := 0;
      Begin(log, base);
      ReadNothing(mem, base);
      if len > 0 && pos % 2 == 1 {
        pos := Get(buf, cnt, pos, 1, base, old(log));
        cnt := cnt + 1;
      }
      if len - cnt >= 2 {
        HalfWord(pos);
        if pos % 4 >= 2 {
          pos := Get(buf, cnt, pos, 2, base, old(log));
          cnt := cnt + 2;
        }
      }
    }

    /** `default_mem_read`: the bytes of the range, one after the other, whatever its alignment. */
    method MemRead(base: nat, buf: array<byte>, len: nat) returns (cnt: nat)
      requires Valid() && base < SPACE && len < SPACE && len <= buf.Length
      modifies this`log, buf
      ensures cnt == len && buf[..len] == ReadBytes(mem, base, len)
      ensures |old(log)| <= |log| && log[..|old(log)|] == old(log) && Tiles(log[|old(log)|..], base, len)
    {
      hide Tiles, Aligned, ReadBytes, Progress, Realigned;
      var pos: nat;
      cnt, pos := GetHead(base, buf, len);
      while len - cnt >= 4
        invariant cnt <= len && (len - cnt < 2 || pos % 4 == 0) && pos < SPACE
        invariant Progress(old(log), log, base, pos, cnt) && buf[..cnt] == ReadBytes(mem, base, cnt)
      {
        var at := pos;
        pos := Get(buf, cnt, at, 4, base, old(log));
        FourthByte(at, pos);
        cnt := cnt + 4;
      }
      HalfWord(pos);
      if len - cnt >= 2 {
        pos := Get(buf, cnt, pos, 2, base, old(log));
        cnt := cnt + 2;
      }
      if len - cnt > 0 {
        pos := Get(buf, cnt, pos, 1, base, old(log));
        cnt := cnt + 1;
      }
      ProgressMade(old(log), log, base, pos, cnt);
    }

    method Put(data: seq<byte>, cnt: nat, pos: nat, w: nat, ghost base: nat, ghost log0: seq<Access>,
               ghost m: seq<byte>)
      returns (next: nat)
      requires Valid() && |m| == SPACE && base < SPACE && (w == 1 || w == 2 || w == 4) && pos % w == 0
      requires cnt + w <= |data| < SPACE
      requires Progress(log0, log, base, pos, cnt) && mem == WriteBytes(m, base, data[..cnt])
      modifies this
      ensures Valid() && Progress(log0, log, base, next, cnt + w) && mem == WriteBytes(m, base, data[..cnt + w])
      ensures next < SPACE && Realigned(pos, w, next)
    {
      hide Tiles, Aligned, WriteBytes, Progress;
      ProgressStep(log0, log, base, pos, cnt, w);
      WriteInParts(m, base, data[..cnt], data[cnt..cnt + w]);
      assert data[..cnt + w] == data[..cnt] + data[cnt..cnt + w];
      if w == 1 {
        Wr8(pos, data[cnt]);
        assert data[cnt..cnt + 1] == [data[cnt]];
      } else if w == 2 {
        Bytes2Of(data[cnt], data[cnt + 1]);
        Wr16(pos, Word2(data[cnt], data[cnt + 1]));
        assert data[cnt..cnt + 2] == [data[cnt], data[cnt + 1]];
      } else {
        Bytes4Of(data[cnt], data[cnt + 1], data[cnt + 2], data[cnt + 3]);
        Wr32(pos, Word4(data[cnt], data[cnt + 1], data[cnt + 2], data[cnt + 3]));
        assert data[cnt..cnt + 4] == [data[cnt], data[cnt + 1], data[cnt + 2], data[cnt + 3]];
      }
      next := (pos + w) % SPACE;
    }

    method PutHead(base: nat, data: seq<byte>) returns (cnt: nat, pos: nat)
      requires Valid() && base < SPACE && |data| < SPACE
      modifies this
      ensures Valid() && cnt <= |data| && (|data| - cnt < 2 || pos % 4 == 0) && pos < SPACE
      ensures Progress(old(log), log, base, pos, cnt) && mem == WriteBytes(old(mem), base, data[..cnt])
    {
      hide WriteBytes, Progress;
      pos := base;
      cnt := 0;
      Begin(log, base);
      WriteNothing(mem, base);
      assert data[..0] == [];
      if |data| > 0 && pos % 2 == 1 {
        pos := Put(data, cnt, pos, 1, base, old(log), old(mem));
        cnt := cnt + 1;
      }
      if |data| - cnt >= 2 {
        HalfWord(pos);
        if pos % 4 >= 2 {
          pos := Put(data, cnt, pos, 2, base, old(log), old(mem));
          cnt := cnt + 2;
        }
      }
    }

    /** `default_mem_write`. */
    method MemWrite(base: nat, data: seq<byte>) returns (cnt: nat)
      requires Valid() && base < SPACE && |data| < SPACE
      modifies this
      ensures Valid() && cnt == |data| && mem == WriteBytes(old(mem), base, data)
      ensures |old(log)| <= |log| && log[..|old(log)|] == old(log) && Tiles(log[|old(log)|..], base, |data|)
    {
      hide Tiles, Aligned, WriteBytes, Progress, Realigned;
      var len := |data|;
      var pos: nat;
      cnt, pos := PutHead(base, data);
      while len - cnt >= 4
        invariant cnt <= len && (len - cnt < 2 || pos % 4 == 0) && pos < SPACE && Valid()
        invariant Progress(old(log), log, base, pos, cnt) && mem == WriteBytes(old(mem), base, data[..cnt])
      {
        var at := pos;
        pos := Put(data, cnt, at, 4, base, old(log), old(mem));
        FourthByte(at, pos);
        cnt := cnt + 4;
      }
      HalfWord(pos);
      if len - cnt >= 2 {
        pos := Put(data, cnt, pos, 2, base, old(log), old(mem));
        cnt := cnt + 2;
      }
      if len - cnt > 0 {
        pos := Put(data, cnt, pos, 1, base, old(log), old(mem));
        cnt := cnt + 1;
      }
      assert data[..cnt] == data;
      ProgressMade(old(log), log, base, pos, cnt);
    }

    method Clear(cnt: nat, pos: nat, w: nat, ghost base: nat, ghost log0: seq<Access>, ghost m: seq<byte>)
      returns (next: nat)
      requires Valid() && |m| == SPACE && base < SPACE && (w == 1 || w == 2 || w == 4) && pos % w == 0
      requires cnt + w < SPACE
      requires Progress(log0, log, base, pos, cnt) && mem == WriteBytes(m, base, Zeros(cnt))
      modifies this
      ensures Valid() && Progress(log0, log, base, next, cnt + w) && mem == WriteBytes(m, base, Zeros(cnt + w))
      ensures next < SPACE && Realigned(pos, w, next)
    {
      hide Tiles, Aligned, WriteBytes, Progress;
      ProgressStep(log0, log, base, pos, cnt, w);
      WriteInParts(m, base, Zeros(cnt), Zeros(w));
      assert Zeros(cnt + w) == Zeros(cnt) + Zeros(w);
      if w == 1 {
        Wr8(pos, 0);
        assert Zeros(1) == [0];
      } else if w == 2 {
        Wr16(pos, 0);
        assert Zeros(2) == Bytes2(0);
      } else {
        Wr32(pos, 0);
        assert Zeros(4) == Bytes4(0);
      }
      next := (pos + w) % SPACE;
    }

    method ClearHead(base: nat, len: nat) returns (cnt: nat, pos: nat)
      requires Valid() && base < SPACE && len < SPACE
      modifies this
      ensures Valid() && cnt <= len && (len - cnt < 2 || pos % 4 == 0) && pos < SPACE
      ensures Progress(old(log), log, base, pos, cnt) && mem == WriteBytes(old(mem), base, Zeros(cnt))
    {
      hide WriteBytes, Progress;
      pos := base;
      cnt := 0;
      Begin(log, base);
      WriteNothing(mem, base);
      assert Zeros(0) == [];
      if len > 0 && pos % 2 == 1 {
        pos := Clear(cnt, pos, 1, base, old(log), old(mem));
        cnt := cnt + 1;
      }
      if len - cnt >= 2 {
        HalfWord(pos);
        if pos % 4 >= 2 {
          pos := Clear(cnt, pos, 2, base, old(log), old(mem));
          cnt := cnt + 2;
        }
      }
    }

    /** `default_mem_erase`: the range is cleared, and nothing else. */
    method MemErase(base: nat, len: nat) returns (cnt: nat)
      requires Valid() && base < SPACE && len < SPACE
      modifies this
      ensures Valid() && cnt == len && mem == WriteBytes(old(mem), base, Zeros(len))
      ensures |old(log)| <= |log| && log[..|old(log)|] == old(log) && Tiles(log[|old(log)|..], base, len)
    {
      hide Tiles, Aligned, WriteBytes, Progress, Realigned;
      var pos: nat;
      cnt, pos := ClearHead(base, len);
      while len - cnt >= 4
        invariant cnt <= len && (len - cnt < 2 || pos % 4 == 0) && pos < SPACE && Valid()
        invariant Progress(old(log), log, base, pos, cnt) && mem == WriteBytes(old(mem), base, Zeros(cnt))
      {
        var at := pos;
        pos := Clear(cnt, at, 4, base, old(log), old(mem));
        FourthByte(at, pos);
        cnt := cnt + 4;
      }
      HalfWord(pos);
      if len - cnt >= 2 {
        pos := Clear(cnt, pos, 2, base, old(log), old(mem));
        cnt := cnt + 2;
      }
      if len - cnt > 0 {
        pos := Clear(cnt, pos, 1, base, old(log), old(mem));
        cnt := cnt + 1;
      }
      ProgressMade(old(log), log, base, pos, cnt);
    }
  }

  lemma FourthByte(pos: nat, next: nat)
    requires Realigned(pos, 4, next)
    ensures next % 4 == 0
  {
  }

  lemma HalfWord(pos: nat)
    ensures pos % 2 == 0 ==> pos % 4 == 0 || pos % 4 == 2
    ensures pos % 4 == 0 ==> pos % 2 == 0
  {
    var h := pos / 2;
    assert pos == 2 * h + pos % 2;
    Doubled(h);
  }

  lemma Doubled(h: nat)
    ensures (2 * h) % 4 == 2 * (h % 2) && (2 * h + 1) % 4 == 2 * (h % 2) + 1
  {
    var q := h / 2;
    assert h == 2 * q + h % 2;
    assert 2 * h == 4 * q + 2 * (h % 2);
  }

  /** After an odd byte the address is even, after the half word in the middle it is a multiple of four. */
  predicate Realigned(pos: nat, w: nat, next: nat) {
    && (w == 1 && pos % 2 == 1 ==> next % 2 == 0)
    && (w == 2 && pos % 4 >= 2 ==> next % 4 == 0)
    && (w == 4 ==> next % 4 == 0)
  }

  lemma ReadNothing(m: seq<byte>, pos: nat)
    requires |m| == SPACE
    ensures ReadBytes(m, pos, 0) == []
  {
  }

  /** The accesses added to the log so far cover `done` bytes from base on, and pos is the next address. */
  ghost predicate Progress(log0: seq<Access>, log: seq<Access>, base: nat, pos: nat, done: nat) {
    && |log0| <= |log| && log[..|log0|] == log0
    && Tiles(log[|log0|..], base, done) && pos == (base + done) % SPACE
  }

  lemma Begin(log: seq<Access>, base: nat)
    requires base < SPACE
    ensures Progress(log, log, base, base, 0)
  {
  }

  lemma Onward(base: nat, done: nat, w: nat)
    requires w <= 4
    ensures ((base + done) % SPACE + w) % SPACE == (base + done + w) % SPACE
  {
    var p := (base + done) % SPACE;
    if p + w >= SPACE { assert (p + w) % SPACE == p + w - SPACE; }
  }

  lemma NextAlignment(pos: nat, w: nat)
    requires pos < SPACE && (w == 1 || w == 2 || w == 4)
    ensures w == 1 && pos % 2 == 1 ==> (pos + 1) % SPACE % 2 == 0
    ensures w == 2 && pos % 4 >= 2 && pos % 2 == 0 ==> (pos + 2) % SPACE % 4 == 0
    ensures w == 4 && pos % 4 == 0 ==> (pos + 4) % SPACE % 4 == 0
  {
    var next := (pos + w) % SPACE;
    assert next == if pos + w < SPACE then pos + w else pos + w - SPACE;
  }

  lemma ProgressStep(log0: seq<Access>, log: seq<Access>, base: nat, pos: nat, done: nat, w: nat)
    requires base < SPACE && Progress(log0, log, base, pos, done) && (w == 1 || w == 2 || w == 4) && pos % w == 0
    ensures Progress(log0, log + [Access(pos, w)], base, (pos + w) % SPACE, done + w)
    ensures pos == (base + done) % SPACE
    ensures w == 1 && pos % 2 == 1 ==> (pos + 1) % SPACE % 2 == 0
    ensures w == 2 && pos % 4 >= 2 ==> (pos + 2) % SPACE % 4 == 0
    ensures w == 4 ==> (pos + 4) % SPACE % 4 == 0
  {
    hide Tiles;
    var a := Access(pos, w);
    assert Aligned(a);
    TilesThen(log[|log0|..], base, done, a);
    assert (log + [a])[|log0|..] == log[|log0|..] + [a];
    assert (log + [a])[..|log0|] == log0;
    Onward(base, done, w);
    NextAlignment(pos, w);
  }

  lemma ProgressMade(log0: seq<Access>, log: seq<Access>, base: nat, pos: nat, done: nat)
    requires Progress(log0, log, base, pos, done)
    ensures |log0| <= |log| && log[..|log0|] == log0 && Tiles(log[|log0|..], base, done)
  {
  }
}
