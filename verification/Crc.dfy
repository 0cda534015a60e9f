/**
 * The cyclic redundancy checks of the repository, each as the code computes it (table look-up or
 * shift-xor) and as the bit-serial division register that it stands for.
 *
 * - CCITT: X^16 + X^12 + X^5 + 1, most significant bit first (XMODEM; crc.h, crc16ccitt.c).
 * - BACnet data: the same polynomial, least significant bit first (Annex G.2 of ANSI/ASHRAE 135).
 * - BACnet header: X^8 + X^7 + 1, least significant bit first (Annex G.1 of ANSI/ASHRAE 135).
 *
 * The 16-bit checks live in 32-bit variables, as the `unsigned int` of the C code does.
 */
module Crc {
  import opened Bytes

  // ---------------------------------------------------------------- bit-serial reference

  /** One clock of each division register, with a zero bit coming in. */
  function ClockMsb(r: bv32): bv32 {
    if r & 0x8000 != 0 then ((r << 1) & 0xffff) ^ 0x1021 else (r << 1) & 0xffff
  }

  function ClockLsb(r: bv32): bv32 {
    if r & 1 == 1 then (r >> 1) ^ 0x8408 else r >> 1
  }

  function ClockHdr(r: bv8): bv8 {
    if r & 1 == 1 then (r >> 1) ^ 0x81 else r >> 1
  }

  /** Eight clocks. */
  function Msb8(r: bv32): bv32 {
    ClockMsb(ClockMsb(ClockMsb(ClockMsb(ClockMsb(ClockMsb(ClockMsb(ClockMsb(r))))))))
  }

  function Lsb8(r: bv32): bv32 {
    ClockLsb(ClockLsb(ClockLsb(ClockLsb(ClockLsb(ClockLsb(ClockLsb(ClockLsb(r))))))))
  }

  function Hdr8(r: bv8): bv8 {
    ClockHdr(ClockHdr(ClockHdr(ClockHdr(ClockHdr(ClockHdr(ClockHdr(ClockHdr(r))))))))
  }

  function Xor(a: bv32, b: bv32): bv32 { a ^ b }

  /** Where the register takes an octet in: at its top, or at its bottom when reflected. */
  function High(c: bv8): bv32 { (c as bv32) << 8 }

  function Low(c: bv8): bv32 { c as bv32 }

  /** Take an octet in and clock eight times. */
  function TakeCcitt(r: bv32, c: bv8): bv32 { Msb8(Xor(r, High(c))) }

  function TakeBacnet(r: bv32, c: bv8): bv32 { Lsb8(Xor(r, Low(c))) }

  function TakeHeader(r: bv8, c: bv8): bv8 { Hdr8(r ^ c) }

  /** A register run over a message. */
  function Run<R, O>(take: (R, O) -> R, r: R, msg: seq<O>): R
    decreases |msg|
  {
    if msg == [] then r else Run(take, take(r, msg[0]), msg[1..])
  }

  function SerialCcitt(r: bv32, msg: seq<bv8>): bv32 { Run(TakeCcitt, r, msg) }

  function SerialBacnet(r: bv32, msg: seq<bv8>): bv32 { Run(TakeBacnet, r, msg) }

  function SerialHeader(r: bv8, msg: seq<bv8>): bv8 { Run(TakeHeader, r, msg) }

  function Successor(b: bv8): (r: bv8)
    requires b as int < 255
    ensures r as int == b as int + 1
  {
    b + 1
  }

  /** The bits of an octet, counted up to. */
  function Octet(c: byte): (b: bv8)
    ensures b as int == c
  {
    if c == 0 then 0 else Successor(Octet(c - 1))
  }

  /** The octets of a message, as a register takes them. */
  function Bits(msg: seq<byte>): (b: seq<bv8>)
    ensures |b| == |msg|
    ensures forall i :: 0 <= i < |msg| ==> b[i] == Octet(msg[i])
  {
    seq(|msg|, i requires 0 <= i < |msg| => Octet(msg[i]))
  }

  /** The low 16 bits of a register, and of its complement. */
  function Narrow(r: bv32): bv16 { (r & 0xffff) as bv16 }

  function Inverted(r: bv32): bv16 { (!r & 0xffff) as bv16 }

  /** The checks as the protocols use them: initial value, and complement where they take one. */
  function XmodemCrc(data: seq<byte>): (crc: int)
    ensures 0 <= crc < 0x10000
  {
    Narrow(SerialCcitt(0, Bits(data))) as int
  }

  function HeaderCrc(hdr: seq<byte>): byte {
    (!SerialHeader(0xff, Bits(hdr))) as int
  }

  function DataCrc(pdu: seq<byte>): (crc: int)
    ensures 0 <= crc < 0x10000
  {
    Inverted(SerialBacnet(0xffff, Bits(pdu))) as int
  }

  // ---------------------------------------------------------------- the registers are additive

  lemma ClockMsbNone(a: bv32, b: bv32)
    requires a & 0x8000 == 0 && b & 0x8000 == 0
    ensures ClockMsb(Xor(a, b)) == Xor(ClockMsb(a), ClockMsb(b))
  {}

  lemma ClockMsbOne(a: bv32, b: bv32)
    requires a & 0x8000 != 0 && b & 0x8000 == 0
    ensures ClockMsb(Xor(a, b)) == Xor(ClockMsb(a), ClockMsb(b))
    ensures ClockMsb(Xor(b, a)) == Xor(ClockMsb(b), ClockMsb(a))
  {}

  lemma ClockMsbBoth(a: bv32, b: bv32)
    requires a & 0x8000 != 0 && b & 0x8000 != 0
    ensures ClockMsb(Xor(a, b)) == Xor(ClockMsb(a), ClockMsb(b))
  {}

  lemma ClockMsbAdds(a: bv32, b: bv32)
    ensures ClockMsb(Xor(a, b)) == Xor(ClockMsb(a), ClockMsb(b))
  {
    if a & 0x8000 == 0 && b & 0x8000 == 0 {
      ClockMsbNone(a, b);
    } else if b & 0x8000 == 0 {
      ClockMsbOne(a, b);
    } else if a & 0x8000 == 0 {
      ClockMsbOne(b, a);
    } else {
      ClockMsbBoth(a, b);
    }
  }

  lemma ClockLsbNone(a: bv32, b: bv32)
    requires a & 1 == 0 && b & 1 == 0
    ensures ClockLsb(Xor(a, b)) == Xor(ClockLsb(a), ClockLsb(b))
  {}

  lemma ClockLsbOne(a: bv32, b: bv32)
    requires a & 1 == 1 && b & 1 == 0
    ensures ClockLsb(Xor(a, b)) == Xor(ClockLsb(a), ClockLsb(b))
    ensures ClockLsb(Xor(b, a)) == Xor(ClockLsb(b), ClockLsb(a))
  {}

  lemma ClockLsbBoth(a: bv32, b: bv32)
    requires a & 1 == 1 && b & 1 == 1
    ensures ClockLsb(Xor(a, b)) == Xor(ClockLsb(a), ClockLsb(b))
  {}

  lemma ClockLsbAdds(a: bv32, b: bv32)
    ensures ClockLsb(Xor(a, b)) == Xor(ClockLsb(a), ClockLsb(b))
  {
    if a & 1 == 0 && b & 1 == 0 {
      ClockLsbNone(a, b);
    } else if b & 1 == 0 {
      ClockLsbOne(a, b);
    } else if a & 1 == 0 {
      ClockLsbOne(b, a);
    } else {
      ClockLsbBoth(a, b);
    }
  }

  lemma Msb8Adds(a: bv32, b: bv32)
    ensures Msb8(Xor(a, b)) == Xor(Msb8(a), Msb8(b))
  {
    var a1, b1 := ClockMsb(a), ClockMsb(b);
    var a2, b2 := ClockMsb(a1), ClockMsb(b1);
    var a3, b3 := ClockMsb(a2), ClockMsb(b2);
    var a4, b4 := ClockMsb(a3), ClockMsb(b3);
    var a5, b5 := ClockMsb(a4), ClockMsb(b4);
    var a6, b6 := ClockMsb(a5), ClockMsb(b5);
    var a7, b7 := ClockMsb(a6), ClockMsb(b6);
    ClockMsbAdds(a, b); ClockMsbAdds(a1, b1); ClockMsbAdds(a2, b2); ClockMsbAdds(a3, b3);
    ClockMsbAdds(a4, b4); ClockMsbAdds(a5, b5); ClockMsbAdds(a6, b6); ClockMsbAdds(a7, b7);
  }

  lemma Lsb8Adds(a: bv32, b: bv32)
    ensures Lsb8(Xor(a, b)) == Xor(Lsb8(a), Lsb8(b))
  {
    var a1, b1 := ClockLsb(a), ClockLsb(b);
    var a2, b2 := ClockLsb(a1), ClockLsb(b1);
    var a3, b3 := ClockLsb(a2), ClockLsb(b2);
    var a4, b4 := ClockLsb(a3), ClockLsb(b3);
    var a5, b5 := ClockLsb(a4), ClockLsb(b4);
    var a6, b6 := ClockLsb(a5), ClockLsb(b5);
    var a7, b7 := ClockLsb(a6), ClockLsb(b6);
    ClockLsbAdds(a, b); ClockLsbAdds(a1, b1); ClockLsbAdds(a2, b2); ClockLsbAdds(a3, b3);
    ClockLsbAdds(a4, b4); ClockLsbAdds(a5, b5); ClockLsbAdds(a6, b6); ClockLsbAdds(a7, b7);
  }

  // ---------------------------------------------------------------- octet by octet

  /** A 16-bit register and its two octets. */
  function Word(hi: bv8, lo: bv8): bv32 { Xor(High(hi), Low(lo)) }

  function Hi(r: bv32): bv8 { ((r >> 8) & 0xff) as bv8 }

  function Lo(r: bv32): bv8 { (r & 0xff) as bv8 }

  lemma WordOfOctets(r: bv32)
    requires r <= 0xffff
    ensures Word(Hi(r), Lo(r)) == r
  {}

  lemma TakeInHigh(hi: bv8, lo: bv8, c: bv8)
    ensures Xor(Word(hi, lo), High(c)) == Word(hi ^ c, lo)
  {}

  lemma TakeInLow(hi: bv8, lo: bv8, c: bv8)
    ensures Xor(Word(hi, lo), Low(c)) == Word(hi, lo ^ c)
  {}

  lemma Msb8OfLow(lo: bv8)
    ensures Msb8(Low(lo)) == High(lo)
  {}

  lemma Lsb8OfHigh(hi: bv8)
    ensures Lsb8(High(hi)) == Low(hi)
  {}

  /** Eight clocks of the reflected registers in closed form. */
  function LsbFold(a: bv32): bv32 {
    var x := (a ^ (a << 4)) & 0xff;
    (x << 8) ^ (x << 3) ^ (x >> 4)
  }

  lemma Lsb8OfLow(lo: bv8)
    ensures Lsb8(Low(lo)) == LsbFold(Low(lo))
  {}

  function HdrFold(a: bv8): bv8 {
    var x := a as bv16;
    var p := x ^ (x << 1) ^ (x << 2) ^ (x << 3) ^ (x << 4) ^ (x << 5) ^ (x << 6) ^ (x << 7);
    ((p & 0xfe) ^ ((p >> 8) & 1)) as bv8
  }

  lemma Hdr8IsFold(a: bv8)
    ensures Hdr8(a) == HdrFold(a)
  {}

  // ---------------------------------------------------------------- the shift-xor octet step

  function Swap(crc: bv32): bv32 { (crc >> 8) | ((crc & 0xff) << 8) }

  function Fold4(y: bv32): bv32 { Xor(y, (y & 0xff) >> 4) }

  function Fold12(z: bv32): bv32 { Xor(z, (z & 0x0f) << 12) }

  function Fold5(w: bv32): bv32 { Xor(w, (w & 0xff) << 5) }

  function Mix(y: bv32): bv32 { Fold5(Fold12(Fold4(y))) }

  /** `__crc16ccitt`, one function for each of its statements. */
  function ShiftXor(crc: bv32, c: bv8): bv32 {
    Mix(Xor(Swap(crc), c as bv32))
  }

  lemma XorAssociates(a: bv32, b: bv32, c: bv32)
    ensures Xor(Xor(a, b), c) == Xor(a, Xor(b, c))
  {}

  lemma XorCommutes(a: bv32, b: bv32)
    ensures Xor(a, b) == Xor(b, a)
  {}

  lemma XorSwaps(p: bv32, q: bv32, f: bv32, g: bv32)
    ensures Xor(Xor(p, q), Xor(f, g)) == Xor(Xor(p, f), Xor(q, g))
  {
    XorAssociates(p, q, Xor(f, g)); XorAssociates(q, f, g); XorCommutes(q, f);
    XorAssociates(f, q, g); XorAssociates(p, f, Xor(q, g));
  }

  lemma MasksAdd(a: bv32, b: bv32)
    ensures (Xor(a, b) & 0xff) >> 4 == Xor((a & 0xff) >> 4, (b & 0xff) >> 4)
    ensures (Xor(a, b) & 0x0f) << 12 == Xor((a & 0x0f) << 12, (b & 0x0f) << 12)
    ensures (Xor(a, b) & 0xff) << 5 == Xor((a & 0xff) << 5, (b & 0xff) << 5)
  {}

  lemma Fold4Adds(a: bv32, b: bv32)
    ensures Fold4(Xor(a, b)) == Xor(Fold4(a), Fold4(b))
  {
    MasksAdd(a, b);
    XorSwaps(a, b, (a & 0xff) >> 4, (b & 0xff) >> 4);
  }

  lemma Fold12Adds(a: bv32, b: bv32)
    ensures Fold12(Xor(a, b)) == Xor(Fold12(a), Fold12(b))
  {
    MasksAdd(a, b);
    XorSwaps(a, b, (a & 0x0f) << 12, (b & 0x0f) << 12);
  }

  lemma Fold5Adds(a: bv32, b: bv32)
    ensures Fold5(Xor(a, b)) == Xor(Fold5(a), Fold5(b))
  {
    MasksAdd(a, b);
    XorSwaps(a, b, (a & 0xff) << 5, (b & 0xff) << 5);
  }

  lemma MixAdds(a: bv32, b: bv32)
    ensures Mix(Xor(a, b)) == Xor(Mix(a), Mix(b))
  {
    Fold4Adds(a, b);
    Fold12Adds(Fold4(a), Fold4(b));
    Fold5Adds(Fold12(Fold4(a)), Fold12(Fold4(b)));
  }

  lemma SwapTakesIn(hi: bv8, lo: bv8, c: bv8)
    ensures Xor(Swap(Word(hi, lo)), c as bv32) == Xor(Low(hi ^ c), High(lo))
  {}

  lemma MixOfHigh(lo: bv8)
    ensures Mix(High(lo)) == High(lo)
  {}

  lemma MixOfLow(a: bv8)
    ensures Mix(Low(a)) == Msb8(High(a))
  {}

  lemma ShiftXorOnOctets(hi: bv8, lo: bv8, c: bv8)
    ensures ShiftXor(Word(hi, lo), c) == Xor(Msb8(High(hi ^ c)), High(lo))
  {
    SwapTakesIn(hi, lo, c);
    MixAdds(Low(hi ^ c), High(lo));
    MixOfLow(hi ^ c);
    MixOfHigh(lo);
  }

  lemma Msb8OnOctets(hi: bv8, lo: bv8, c: bv8)
    ensures Msb8(Xor(Word(hi, lo), High(c))) == Xor(Msb8(High(hi ^ c)), High(lo))
  {
    TakeInHigh(hi, lo, c);
    Msb8Adds(High(hi ^ c), Low(lo));
    Msb8OfLow(lo);
  }

  /** The shift-xor step is exactly eight clocks of the bit-serial register. */
  lemma ShiftXorIsSerial(crc: bv32, c: bv8)
    requires crc <= 0xffff
    ensures ShiftXor(crc, c) == TakeCcitt(crc, c)
  {
    hide ShiftXor, Msb8, Word, Hi, Lo, High, Xor;
    WordOfOctets(crc);
    ShiftXorOnOctets(Hi(crc), Lo(crc), c);
    Msb8OnOctets(Hi(crc), Lo(crc), c);
  }

  lemma ClockMsbStays16(r: bv32)
    ensures ClockMsb(r) <= 0xffff
  {}

  lemma Msb8Stays16(r: bv32)
    ensures Msb8(r) <= 0xffff
  {
    ClockMsbStays16(ClockMsb(ClockMsb(ClockMsb(ClockMsb(ClockMsb(ClockMsb(ClockMsb(r))))))));
  }

  lemma TakeCcittStays16(r: bv32, c: bv8)
    ensures TakeCcitt(r, c) <= 0xffff
  {
    Msb8Stays16(Xor(r, High(c)));
  }

  /** `crc16ccitt`: the step looped over a buffer. */
  method Crc16Ccitt(crc0: bv32, buf: seq<bv8>) returns (crc: bv32)
    requires crc0 <= 0xffff
    ensures crc == SerialCcitt(crc0, buf) <= 0xffff
    ensures forall data :: crc0 == 0 && buf == Bits(data) ==> XmodemCrc(data) == Narrow(crc) as int
  {
    crc := crc0;
    for i := 0 to |buf|
      invariant crc <= 0xffff
      invariant SerialCcitt(crc0, buf) == SerialCcitt(crc, buf[i..])
    {
      ShiftXorIsSerial(crc, buf[i]);
      TakeCcittStays16(crc, buf[i]);
      crc := ShiftXor(crc, buf[i]);
      assert buf[i..][1..] == buf[i + 1..];
    }
  }

  // ---------------------------------------------------------------- the BACnet tables

  /** The tables, in the rows of eight entries they are written in. */
  const CRC8_LUT: seq<seq<bv8>> := [
    [0x00, 0xfe, 0xff, 0x01, 0xfd, 0x03, 0x02, 0xfc],
    [0xf9, 0x07, 0x06, 0xf8, 0x04, 0xfa, 0xfb, 0x05],
    [0xf1, 0x0f, 0x0e, 0xf0, 0x0c, 0xf2, 0xf3, 0x0d],
    [0x08, 0xf6, 0xf7, 0x09, 0xf5, 0x0b, 0x0a, 0xf4],
    [0xe1, 0x1f, 0x1e, 0xe0, 0x1c, 0xe2, 0xe3, 0x1d],
    [0x18, 0xe6, 0xe7, 0x19, 0xe5, 0x1b, 0x1a, 0xe4],
    [0x10, 0xee, 0xef, 0x11, 0xed, 0x13, 0x12, 0xec],
    [0xe9, 0x17, 0x16, 0xe8, 0x14, 0xea, 0xeb, 0x15],
    [0xc1, 0x3f, 0x3e, 0xc0, 0x3c, 0xc2, 0xc3, 0x3d],
    [0x38, 0xc6, 0xc7, 0x39, 0xc5, 0x3b, 0x3a, 0xc4],
    [0x30, 0xce, 0xcf, 0x31, 0xcd, 0x33, 0x32, 0xcc],
    [0xc9, 0x37, 0x36, 0xc8, 0x34, 0xca, 0xcb, 0x35],
    [0x20, 0xde, 0xdf, 0x21, 0xdd, 0x23, 0x22, 0xdc],
    [0xd9, 0x27, 0x26, 0xd8, 0x24, 0xda, 0xdb, 0x25],
    [0xd1, 0x2f, 0x2e, 0xd0, 0x2c, 0xd2, 0xd3, 0x2d],
    [0x28, 0xd6, 0xd7, 0x29, 0xd5, 0x2b, 0x2a, 0xd4],
    [0x81, 0x7f, 0x7e, 0x80, 0x7c, 0x82, 0x83, 0x7d],
    [0x78, 0x86, 0x87, 0x79, 0x85, 0x7b, 0x7a, 0x84],
    [0x70, 0x8e, 0x8f, 0x71, 0x8d, 0x73, 0x72, 0x8c],
    [0x89, 0x77, 0x76, 0x88, 0x74, 0x8a, 0x8b, 0x75],
    [0x60, 0x9e, 0x9f, 0x61, 0x9d, 0x63, 0x62, 0x9c],
    [0x99, 0x67, 0x66, 0x98, 0x64, 0x9a, 0x9b, 0x65],
    [0x91, 0x6f, 0x6e, 0x90, 0x6c, 0x92, 0x93, 0x6d],
    [0x68, 0x96, 0x97, 0x69, 0x95, 0x6b, 0x6a, 0x94],
    [0x40, 0xbe, 0xbf, 0x41, 0xbd, 0x43, 0x42, 0xbc],
    [0xb9, 0x47, 0x46, 0xb8, 0x44, 0xba, 0xbb, 0x45],
    [0xb1, 0x4f, 0x4e, 0xb0, 0x4c, 0xb2, 0xb3, 0x4d],
    [0x48, 0xb6, 0xb7, 0x49, 0xb5, 0x4b, 0x4a, 0xb4],
    [0xa1, 0x5f, 0x5e, 0xa0, 0x5c, 0xa2, 0xa3, 0x5d],
    [0x58, 0xa6, 0xa7, 0x59, 0xa5, 0x5b, 0x5a, 0xa4],
    [0x50, 0xae, 0xaf, 0x51, 0xad, 0x53, 0x52, 0xac],
    [0xa9, 0x57, 0x56, 0xa8, 0x54, 0xaa, 0xab, 0x55]
  ]

  const CRC16_LUT: seq<seq<bv32>> := [
    [0x0000, 0x1189, 0x2312, 0x329b, 0x4624, 0x57ad, 0x6536, 0x74bf],
    [0x8c48, 0x9dc1, 0xaf5a, 0xbed3, 0xca6c, 0xdbe5, 0xe97e, 0xf8f7],
    [0x1081, 0x0108, 0x3393, 0x221a, 0x56a5, 0x472c, 0x75b7, 0x643e],
    [0x9cc9, 0x8d40, 0xbfdb, 0xae52, 0xdaed, 0xcb64, 0xf9ff, 0xe876],
    [0x2102, 0x308b, 0x0210, 0x1399, 0x6726, 0x76af, 0x4434, 0x55bd],
    [0xad4a, 0xbcc3, 0x8e58, 0x9fd1, 0xeb6e, 0xfae7, 0xc87c, 0xd9f5],
    [0x3183, 0x200a, 0x1291, 0x0318, 0x77a7, 0x662e, 0x54b5, 0x453c],
    [0xbdcb, 0xac42, 0x9ed9, 0x8f50, 0xfbef, 0xea66, 0xd8fd, 0xc974],
    [0x4204, 0x538d, 0x6116, 0x709f, 0x0420, 0x15a9, 0x2732, 0x36bb],
    [0xce4c, 0xdfc5, 0xed5e, 0xfcd7, 0x8868, 0x99e1, 0xab7a, 0xbaf3],
    [0x5285, 0x430c, 0x7197, 0x601e, 0x14a1, 0x0528, 0x37b3, 0x263a],
    [0xdecd, 0xcf44, 0xfddf, 0xec56, 0x98e9, 0x8960, 0xbbfb, 0xaa72],
    [0x6306, 0x728f, 0x4014, 0x519d, 0x2522, 0x34ab, 0x0630, 0x17b9],
    [0xef4e, 0xfec7, 0xcc5c, 0xddd5, 0xa96a, 0xb8e3, 0x8a78, 0x9bf1],
    [0x7387, 0x620e, 0x5095, 0x411c, 0x35a3, 0x242a, 0x16b1, 0x0738],
    [0xffcf, 0xee46, 0xdcdd, 0xcd54, 0xb9eb, 0xa862, 0x9af9, 0x8b70],
    [0x8408, 0x9581, 0xa71a, 0xb693, 0xc22c, 0xd3a5, 0xe13e, 0xf0b7],
    [0x0840, 0x19c9, 0x2b52, 0x3adb, 0x4e64, 0x5fed, 0x6d76, 0x7cff],
    [0x9489, 0x8500, 0xb79b, 0xa612, 0xd2ad, 0xc324, 0xf1bf, 0xe036],
    [0x18c1, 0x0948, 0x3bd3, 0x2a5a, 0x5ee5, 0x4f6c, 0x7df7, 0x6c7e],
    [0xa50a, 0xb483, 0x8618, 0x9791, 0xe32e, 0xf2a7, 0xc03c, 0xd1b5],
    [0x2942, 0x38cb, 0x0a50, 0x1bd9, 0x6f66, 0x7eef, 0x4c74, 0x5dfd],
    [0xb58b, 0xa402, 0x9699, 0x8710, 0xf3af, 0xe226, 0xd0bd, 0xc134],
    [0x39c3, 0x284a, 0x1ad1, 0x0b58, 0x7fe7, 0x6e6e, 0x5cf5, 0x4d7c],
    [0xc60c, 0xd785, 0xe51e, 0xf497, 0x8028, 0x91a1, 0xa33a, 0xb2b3],
    [0x4a44, 0x5bcd, 0x6956, 0x78df, 0x0c60, 0x1de9, 0x2f72, 0x3efb],
    [0xd68d, 0xc704, 0xf59f, 0xe416, 0x90a9, 0x8120, 0xb3bb, 0xa232],
    [0x5ac5, 0x4b4c, 0x79d7, 0x685e, 0x1ce1, 0x0d68, 0x3ff3, 0x2e7a],
    [0xe70e, 0xf687, 0xc41c, 0xd595, 0xa12a, 0xb0a3, 0x8238, 0x93b1],
    [0x6b46, 0x7acf, 0x4854, 0x59dd, 0x2d62, 0x3ceb, 0x0e70, 0x1ff9],
    [0xf78f, 0xe606, 0xd49d, 0xc514, 0xb1ab, 0xa022, 0x92b9, 0x8330],
    [0x7bc7, 0x6a4e, 0x58d5, 0x495c, 0x3de3, 0x2c6a, 0x1ef1, 0x0f78]
  ]

  /** What entry `j` of the row starting at `i` should be. */
  function HeaderCell(i: bv8, j: bv8): bv8 { HdrFold(i + j) }

  function DataCell(i: bv32, j: bv8): bv32 { LsbFold(i + (j as bv32)) }

  predicate HeaderRow(row: seq<bv8>, i: bv8) {
    && |row| == 8
    && row[0] == HeaderCell(i, 0) && row[1] == HeaderCell(i, 1)
    && row[2] == HeaderCell(i, 2) && row[3] == HeaderCell(i, 3)
    && row[4] == HeaderCell(i, 4) && row[5] == HeaderCell(i, 5)
    && row[6] == HeaderCell(i, 6) && row[7] == HeaderCell(i, 7)
  }

  predicate DataRow(row: seq<bv32>, i: bv32) {
    && |row| == 8
    && row[0] == DataCell(i, 0) && row[1] == DataCell(i, 1) && row[2] == DataCell(i, 2) && row[3] == DataCell(i, 3)
    && row[4] == DataCell(i, 4) && row[5] == DataCell(i, 5) && row[6] == DataCell(i, 6) && row[7] == DataCell(i, 7)
  }

  lemma HeaderRows0()
    ensures HeaderRow(CRC8_LUT[0], 0) && HeaderRow(CRC8_LUT[1], 8)
  {}

  lemma HeaderRows1()
    ensures HeaderRow(CRC8_LUT[2], 16) && HeaderRow(CRC8_LUT[3], 24)
  {}

  lemma HeaderRows2()
    ensures HeaderRow(CRC8_LUT[4], 32) && HeaderRow(CRC8_LUT[5], 40)
  {}

  lemma HeaderRows3()
    ensures HeaderRow(CRC8_LUT[6], 48) && HeaderRow(CRC8_LUT[7], 56)
  {}

  lemma HeaderRows4()
    ensures HeaderRow(CRC8_LUT[8], 64) && HeaderRow(CRC8_LUT[9], 72)
  {}

  lemma HeaderRows5()
    ensures HeaderRow(CRC8_LUT[10], 80) && HeaderRow(CRC8_LUT[11], 88)
  {}

  lemma HeaderRows6()
    ensures HeaderRow(CRC8_LUT[12], 96) && HeaderRow(CRC8_LUT[13], 104)
  {}

  lemma HeaderRows7()
    ensures HeaderRow(CRC8_LUT[14], 112) && HeaderRow(CRC8_LUT[15], 120)
  {}

  lemma HeaderRows8()
    ensures HeaderRow(CRC8_LUT[16], 128) && HeaderRow(CRC8_LUT[17], 136)
  {}

  lemma HeaderRows9()
    ensures HeaderRow(CRC8_LUT[18], 144) && HeaderRow(CRC8_LUT[19], 152)
  {}

  lemma HeaderRows10()
    ensures HeaderRow(CRC8_LUT[20], 160) && HeaderRow(CRC8_LUT[21], 168)
  {}

  lemma HeaderRows11()
    ensures HeaderRow(CRC8_LUT[22], 176) && HeaderRow(CRC8_LUT[23], 184)
  {}

  lemma HeaderRows12()
    ensures HeaderRow(CRC8_LUT[24], 192) && HeaderRow(CRC8_LUT[25], 200)
  {}

  lemma HeaderRows13()
    ensures HeaderRow(CRC8_LUT[26], 208) && HeaderRow(CRC8_LUT[27], 216)
  {}

  lemma HeaderRows14()
    ensures HeaderRow(CRC8_LUT[28], 224) && HeaderRow(CRC8_LUT[29], 232)
  {}

  lemma HeaderRows15()
    ensures HeaderRow(CRC8_LUT[30], 240) && HeaderRow(CRC8_LUT[31], 248)
  {}

  lemma DataRows0()
    ensures DataRow(CRC16_LUT[0], 0) && DataRow(CRC16_LUT[1], 8)
  {}

  lemma DataRows1()
    ensures DataRow(CRC16_LUT[2], 16) && DataRow(CRC16_LUT[3], 24)
  {}

  lemma DataRows2()
    ensures DataRow(CRC16_LUT[4], 32) && DataRow(CRC16_LUT[5], 40)
  {}

  lemma DataRows3()
    ensures DataRow(CRC16_LUT[6], 48) && DataRow(CRC16_LUT[7], 56)
  {}

  lemma DataRows4()
    ensures DataRow(CRC16_LUT[8], 64) && DataRow(CRC16_LUT[9], 72)
  {}

  lemma DataRows5()
    ensures DataRow(CRC16_LUT[10], 80) && DataRow(CRC16_LUT[11], 88)
  {}

  lemma DataRows6()
    ensures DataRow(CRC16_LUT[12], 96) && DataRow(CRC16_LUT[13], 104)
  {}

  lemma DataRows7()
    ensures DataRow(CRC16_LUT[14], 112) && DataRow(CRC16_LUT[15], 120)
  {}

  lemma DataRows8()
    ensures DataRow(CRC16_LUT[16], 128) && DataRow(CRC16_LUT[17], 136)
  {}

  lemma DataRows9()
    ensures DataRow(CRC16_LUT[18], 144) && DataRow(CRC16_LUT[19], 152)
  {}

  lemma DataRows10()
    ensures DataRow(CRC16_LUT[20], 160) && DataRow(CRC16_LUT[21], 168)
  {}

  lemma DataRows11()
    ensures DataRow(CRC16_LUT[22], 176) && DataRow(CRC16_LUT[23], 184)
  {}

  lemma DataRows12()
    ensures DataRow(CRC16_LUT[24], 192) && DataRow(CRC16_LUT[25], 200)
  {}

  lemma DataRows13()
    ensures DataRow(CRC16_LUT[26], 208) && DataRow(CRC16_LUT[27], 216)
  {}

  lemma DataRows14()
    ensures DataRow(CRC16_LUT[28], 224) && DataRow(CRC16_LUT[29], 232)
  {}

  lemma DataRows15()
    ensures DataRow(CRC16_LUT[30], 240) && DataRow(CRC16_LUT[31], 248)
  {}

  lemma HeaderTable(r: bv8)
    requires r < 32
    ensures |CRC8_LUT| == 32 && HeaderRow(CRC8_LUT[r as int], r << 3)
  {
    HeaderRows0(); HeaderRows1(); HeaderRows2(); HeaderRows3();
    HeaderRows4(); HeaderRows5(); HeaderRows6(); HeaderRows7();
    HeaderRows8(); HeaderRows9(); HeaderRows10(); HeaderRows11();
    HeaderRows12(); HeaderRows13(); HeaderRows14(); HeaderRows15();
  }

  lemma DataTable(r: bv8)
    requires r < 32
    ensures |CRC16_LUT| == 32 && DataRow(CRC16_LUT[r as int], (r << 3) as bv32)
  {
    DataRows0(); DataRows1(); DataRows2(); DataRows3();
    DataRows4(); DataRows5(); DataRows6(); DataRows7();
    DataRows8(); DataRows9(); DataRows10(); DataRows11();
    DataRows12(); DataRows13(); DataRows14(); DataRows15();
  }

  lemma Eight(j: bv8)
    requires j < 8
    ensures j == 0 || j == 1 || j == 2 || j == 3 || j == 4 || j == 5 || j == 6 || j == 7
  {}

  lemma HeaderEntry(row: seq<bv8>, i: bv8, j: bv8)
    requires HeaderRow(row, i) && j < 8
    ensures row[j as int] == HeaderCell(i, j)
  {
    hide HeaderCell;
    Eight(j);
  }

  lemma DataEntry(row: seq<bv32>, i: bv32, j: bv8)
    requires DataRow(row, i) && j < 8
    ensures row[j as int] == DataCell(i, j)
  {
    hide DataCell;
    Eight(j);
  }

  lemma RowAndColumn(x: bv8)
    ensures x >> 3 < 32 && x & 7 < 8
    ensures ((x >> 3) << 3) + (x & 7) == x
    ensures (((x >> 3) << 3) as bv32) + ((x & 7) as bv32) == Low(x)
  {}

  lemma HeaderCellIsClocks(x: bv8)
    ensures HeaderCell((x >> 3) << 3, x & 7) == Hdr8(x)
  {
    RowAndColumn(x);
    Hdr8IsFold(x);
  }

  lemma DataCellIsClocks(x: bv8)
    ensures DataCell(((x >> 3) << 3) as bv32, x & 7) == Lsb8(Low(x))
  {
    RowAndColumn(x);
    Lsb8OfLow(x);
  }

  lemma HeaderPick(row: seq<bv8>, x: bv8)
    requires HeaderRow(row, (x >> 3) << 3)
    ensures (x & 7) as int < 8 && row[(x & 7) as int] == Hdr8(x)
  {
    RowAndColumn(x);
    HeaderEntry(row, (x >> 3) << 3, x & 7);
    HeaderCellIsClocks(x);
  }

  lemma DataPick(row: seq<bv32>, x: bv8)
    requires DataRow(row, ((x >> 3) << 3) as bv32)
    ensures (x & 7) as int < 8 && row[(x & 7) as int] == Lsb8(Low(x))
  {
    RowAndColumn(x);
    DataEntry(row, ((x >> 3) << 3) as bv32, x & 7);
    DataCellIsClocks(x);
  }

  /** `bacnet_crc8_lut[x]` and `bacnet_crc16_lut[x]`. Every entry is eight clocks of its index. */
  function HeaderLut(x: bv8): (v: bv8)
    ensures v == Hdr8(x)
  {
    HeaderTable(x >> 3);
    HeaderPick(CRC8_LUT[(x >> 3) as int], x);
    CRC8_LUT[(x >> 3) as int][(x & 7) as int]
  }

  function DataLut(x: bv8): (v: bv32)
    ensures v == Lsb8(Low(x))
  {
    DataTable(x >> 3);
    DataPick(CRC16_LUT[(x >> 3) as int], x);
    CRC16_LUT[(x >> 3) as int][(x & 7) as int]
  }

  /** One step of `bacnet_crc16`. */
  function LookUp(crc: bv32, c: bv8): bv32 {
    Xor(crc >> 8, DataLut(Lo(crc) ^ c))
  }

  lemma Lsb8OnOctets(hi: bv8, lo: bv8, c: bv8)
    ensures Lsb8(Xor(Word(hi, lo), Low(c))) == Xor(Low(hi), Lsb8(Low(lo ^ c)))
  {
    TakeInLow(hi, lo, c);
    Lsb8Adds(High(hi), Low(lo ^ c));
    Lsb8OfHigh(hi);
  }

  lemma HighOctetOnly(crc: bv32)
    requires crc <= 0xffff
    ensures crc >> 8 == Low(Hi(crc))
  {}

  /** One look-up is exactly eight clocks of the bit-serial register. */
  lemma LookUpIsSerial(crc: bv32, c: bv8)
    requires crc <= 0xffff
    ensures LookUp(crc, c) == TakeBacnet(crc, c)
  {
    WordOfOctets(crc);
    HighOctetOnly(crc);
    Lsb8OnOctets(Hi(crc), Lo(crc), c);
  }

  lemma ClockLsbStays16(r: bv32)
    requires r <= 0xffff
    ensures ClockLsb(r) <= 0xffff
  {}

  lemma Lsb8Stays16(r: bv32)
    requires r <= 0xffff
    ensures Lsb8(r) <= 0xffff
  {
    var r1 := ClockLsb(r); var r2 := ClockLsb(r1); var r3 := ClockLsb(r2); var r4 := ClockLsb(r3);
    var r5 := ClockLsb(r4); var r6 := ClockLsb(r5); var r7 := ClockLsb(r6);
    ClockLsbStays16(r); ClockLsbStays16(r1); ClockLsbStays16(r2); ClockLsbStays16(r3);
    ClockLsbStays16(r4); ClockLsbStays16(r5); ClockLsbStays16(r6); ClockLsbStays16(r7);
  }

  lemma XorStays16(a: bv32, b: bv32)
    requires a <= 0xffff && b <= 0xffff
    ensures Xor(a, b) <= 0xffff
  {}

  lemma PlaceStays16(c: bv8)
    ensures Low(c) <= 0xffff && High(c) <= 0xffff
  {}

  lemma TakeBacnetStays16(r: bv32, c: bv8)
    requires r <= 0xffff
    ensures TakeBacnet(r, c) <= 0xffff
  {
    PlaceStays16(c);
    XorStays16(r, Low(c));
    Lsb8Stays16(Xor(r, Low(c)));
  }

  /** `bacnet_crc8` and `bacnet_crc16`: the table look-ups looped over a buffer. */
  method BacnetCrc8(crc0: bv8, buf: seq<bv8>) returns (crc: bv8)
    ensures crc == SerialHeader(crc0, buf)
    ensures forall hdr :: crc0 == 0xff && buf == Bits(hdr) ==> HeaderCrc(hdr) == (!crc) as int
  {
    crc := crc0;
    for i := 0 to |buf|
      invariant SerialHeader(crc0, buf) == SerialHeader(crc, buf[i..])
    {
      crc := HeaderLut(crc ^ buf[i]);
      assert buf[i..][1..] == buf[i + 1..];
    }
  }

  method BacnetCrc16(crc0: bv32, buf: seq<bv8>) returns (crc: bv32)
    requires crc0 <= 0xffff
    ensures crc == SerialBacnet(crc0, buf) <= 0xffff
    ensures forall pdu :: crc0 == 0xffff && buf == Bits(pdu) ==> DataCrc(pdu) == Inverted(crc) as int
  {
    crc := crc0;
    for i := 0 to |buf|
      invariant crc <= 0xffff
      invariant SerialBacnet(crc0, buf) == SerialBacnet(crc, buf[i..])
    {
      TakeBacnetStays16(crc, buf[i]);
      LookUpIsSerial(crc, buf[i]);
      crc := LookUp(crc, buf[i]);
      assert buf[i..][1..] == buf[i + 1..];
    }
  }

  // ---------------------------------------------------------------- what the checks detect

  lemma XorCancels(f: bv32, x: bv32, y: bv32)
    requires Xor(f, x) == Xor(f, y)
    ensures x == y
  {}

  lemma XorUndoes(a: bv32, b: bv32)
    ensures Xor(a, Xor(a, b)) == b && Xor(a, a) == 0 && Xor(a, 0) == a
  {}

  lemma XorMoves(a: bv32, b: bv32, c: bv32, d: bv32)
    requires Xor(a, b) == Xor(c, d)
    ensures Xor(a, c) == Xor(b, d)
  {
    var e := Xor(a, b);
    XorUndoes(a, b); XorUndoes(c, d); XorUndoes(e, e);
    XorSwaps(a, e, c, e);
    XorUndoes(Xor(a, c), 0);
  }

  function ShiftUp(r: bv32): bv32 { (r << 1) & 0xffff }

  predicate Top(r: bv32) { r & 0x8000 != 0 }

  predicate Odd(r: bv32) { r & 1 == 1 }

  lemma ClockMsbCases(r: bv32)
    ensures !Top(r) ==> ClockMsb(r) == ShiftUp(r)
    ensures Top(r) ==> ClockMsb(r) == Xor(0x1021, ShiftUp(r))
    ensures Odd(ClockMsb(r)) == Top(r)
  {}

  lemma ShiftUpInjects(a: bv32, b: bv32)
    requires a <= 0xffff && b <= 0xffff && Top(a) == Top(b) && ShiftUp(a) == ShiftUp(b)
    ensures a == b
  {}

  /** The lowest bit tells what fell off the top, so a clock loses nothing. */
  lemma ClockMsbInjects(a: bv32, b: bv32)
    requires a <= 0xffff && b <= 0xffff && ClockMsb(a) == ClockMsb(b)
    ensures a == b
  {
    ClockMsbCases(a);
    ClockMsbCases(b);
    if Top(a) {
      XorCancels(0x1021, ShiftUp(a), ShiftUp(b));
    }
    ShiftUpInjects(a, b);
  }

  lemma ClockLsbInjects(a: bv32, b: bv32)
    requires a <= 0xffff && b <= 0xffff && ClockLsb(a) == ClockLsb(b)
    ensures a == b
  {}

  lemma Msb8Injects(a: bv32, b: bv32)
    requires a <= 0xffff && b <= 0xffff && Msb8(a) == Msb8(b)
    ensures a == b
  {
    var a1 := ClockMsb(a); var a2 := ClockMsb(a1); var a3 := ClockMsb(a2); var a4 := ClockMsb(a3);
    var a5 := ClockMsb(a4); var a6 := ClockMsb(a5); var a7 := ClockMsb(a6);
    var b1 := ClockMsb(b); var b2 := ClockMsb(b1); var b3 := ClockMsb(b2); var b4 := ClockMsb(b3);
    var b5 := ClockMsb(b4); var b6 := ClockMsb(b5); var b7 := ClockMsb(b6);
    ClockMsbStays16(a); ClockMsbStays16(a1); ClockMsbStays16(a2); ClockMsbStays16(a3);
    ClockMsbStays16(a4); ClockMsbStays16(a5); ClockMsbStays16(a6);
    ClockMsbStays16(b); ClockMsbStays16(b1); ClockMsbStays16(b2); ClockMsbStays16(b3);
    ClockMsbStays16(b4); ClockMsbStays16(b5); ClockMsbStays16(b6);
    ClockMsbInjects(a7, b7); ClockMsbInjects(a6, b6); ClockMsbInjects(a5, b5); ClockMsbInjects(a4, b4);
    ClockMsbInjects(a3, b3); ClockMsbInjects(a2, b2); ClockMsbInjects(a1, b1); ClockMsbInjects(a, b);
  }

  lemma Lsb8Injects(a: bv32, b: bv32)
    requires a <= 0xffff && b <= 0xffff && Lsb8(a) == Lsb8(b)
    ensures a == b
  {
    var a1 := ClockLsb(a); var a2 := ClockLsb(a1); var a3 := ClockLsb(a2); var a4 := ClockLsb(a3);
    var a5 := ClockLsb(a4); var a6 := ClockLsb(a5); var a7 := ClockLsb(a6);
    var b1 := ClockLsb(b); var b2 := ClockLsb(b1); var b3 := ClockLsb(b2); var b4 := ClockLsb(b3);
    var b5 := ClockLsb(b4); var b6 := ClockLsb(b5); var b7 := ClockLsb(b6);
    ClockLsbStays16(a); ClockLsbStays16(a1); ClockLsbStays16(a2); ClockLsbStays16(a3);
    ClockLsbStays16(a4); ClockLsbStays16(a5); ClockLsbStays16(a6);
    ClockLsbStays16(b); ClockLsbStays16(b1); ClockLsbStays16(b2); ClockLsbStays16(b3);
    ClockLsbStays16(b4); ClockLsbStays16(b5); ClockLsbStays16(b6);
    ClockLsbInjects(a7, b7); ClockLsbInjects(a6, b6); ClockLsbInjects(a5, b5); ClockLsbInjects(a4, b4);
    ClockLsbInjects(a3, b3); ClockLsbInjects(a2, b2); ClockLsbInjects(a1, b1); ClockLsbInjects(a, b);
  }

  /** What one octet leaves in the register, the next octet alone cannot cancel. */
  lemma HighCancels(e1: bv8, e2: bv8)
    requires Msb8(High(e1)) == High(e2)
    ensures e1 == 0 && e2 == 0
  {}

  lemma LowCancels(e1: bv8, e2: bv8)
    requires Lsb8(Low(e1)) == Low(e2)
    ensures e1 == 0 && e2 == 0
  {}

  lemma PlaceAdds(c: bv8, d: bv8)
    ensures Xor(High(c), High(d)) == High(c ^ d) && Xor(Low(c), Low(d)) == Low(c ^ d)
    ensures c ^ d == 0 ==> c == d
  {}

  lemma CcittSeparates(r: bv32, c1: bv8, c2: bv8, d1: bv8, d2: bv8)
    requires Xor(Msb8(Xor(r, High(c1))), High(c2)) == Xor(Msb8(Xor(r, High(d1))), High(d2))
    ensures c1 == d1 && c2 == d2
  {
    var f, x, y := Msb8(r), Msb8(High(c1)), Msb8(High(d1));
    Msb8Adds(r, High(c1)); Msb8Adds(r, High(d1));
    XorAssociates(f, x, High(c2)); XorAssociates(f, y, High(d2));
    XorCancels(f, Xor(x, High(c2)), Xor(y, High(d2)));
    XorMoves(x, High(c2), y, High(d2));
    Msb8Adds(High(c1), High(d1));
    PlaceAdds(c1, d1); PlaceAdds(c2, d2);
    HighCancels(c1 ^ d1, c2 ^ d2);
  }

  lemma BacnetSeparates(r: bv32, c1: bv8, c2: bv8, d1: bv8, d2: bv8)
    requires Xor(Lsb8(Xor(r, Low(c1))), Low(c2)) == Xor(Lsb8(Xor(r, Low(d1))), Low(d2))
    ensures c1 == d1 && c2 == d2
  {
    var f, x, y := Lsb8(r), Lsb8(Low(c1)), Lsb8(Low(d1));
    Lsb8Adds(r, Low(c1)); Lsb8Adds(r, Low(d1));
    XorAssociates(f, x, Low(c2)); XorAssociates(f, y, Low(d2));
    XorCancels(f, Xor(x, Low(c2)), Xor(y, Low(d2)));
    XorMoves(x, Low(c2), y, Low(d2));
    Lsb8Adds(Low(c1), Low(d1));
    PlaceAdds(c1, d1); PlaceAdds(c2, d2);
    LowCancels(c1 ^ d1, c2 ^ d2);
  }

  // What the argument about whole messages uses of a register: it never leaves the values that
  // fit, it forgets nothing over an octet, and two octets in a row leave a trace of their own.

  predicate Keeps<R, O>(fits: R -> bool, take: (R, O) -> R, r: R, c: O) {
    fits(r) ==> fits(take(r, c))
  }

  predicate Remembers<R(==), O>(fits: R -> bool, take: (R, O) -> R, r: R, s: R, c: O) {
    fits(r) && fits(s) && take(r, c) == take(s, c) ==> r == s
  }

  predicate Separates<R(==), O(==)>(fits: R -> bool, take: (R, O) -> R, r: R, c1: O, c2: O, d1: O, d2: O) {
    fits(r) && take(take(r, c1), c2) == take(take(r, d1), d2) ==> c1 == d1 && c2 == d2
  }

  ghost predicate Detector<R(!new), O(!new)>(fits: R -> bool, take: (R, O) -> R) {
    && (forall r, c :: Keeps(fits, take, r, c))
    && (forall r, s, c :: Remembers(fits, take, r, s, c))
    && (forall r, c1, c2, d1, d2 :: Separates(fits, take, r, c1, c2, d1, d2))
  }

  /** Registers that differ keep differing over a common tail. */
  lemma {:induction false} TailKeepsApart<R(!new), O(!new)>(
      fits: R -> bool, take: (R, O) -> R, r: R, s: R, tail: seq<O>)
    requires Detector(fits, take) && fits(r) && fits(s) && r != s
    ensures Run(take, r, tail) != Run(take, s, tail)
    decreases |tail|
  {
    if tail != [] {
      assert Keeps(fits, take, r, tail[0]) && Keeps(fits, take, s, tail[0]) && Remembers(fits, take, r, s, tail[0]);
      TailKeepsApart(fits, take, take(r, tail[0]), take(s, tail[0]), tail[1..]);
    }
  }

  /** What differs only within two consecutive octets, the register tells apart. */
  lemma {:induction false} BurstShows<R(!new), O(!new)>(
      fits: R -> bool, take: (R, O) -> R, r: R, m1: seq<O>, m2: seq<O>, i: nat)
    requires Detector(fits, take) && fits(r)
    requires |m1| == |m2| && m1 != m2
    requires forall j :: 0 <= j < |m1| && j != i && j != i + 1 ==> m1[j] == m2[j]
    ensures Run(take, r, m1) != Run(take, r, m2)
    decreases |m1|
  {
    var c, d := m1[0], m2[0];
    var r1, r2 := take(r, c), take(r, d);
    assert Keeps(fits, take, r, c) && Keeps(fits, take, r, d);
    assert m1 == [c] + m1[1..] && m2 == [d] + m2[1..];
    if c == d {
      BurstShows(fits, take, r1, m1[1..], m2[1..], if i == 0 then 0 else i - 1);
    } else if |m1| == 1 {
      assert Separates(fits, take, r, c, c, d, c);
      assert m1[1..] == [] == m2[1..];
    } else {
      assert Separates(fits, take, r, c, m1[1], d, m2[1]);
      assert Keeps(fits, take, r1, m1[1]) && Keeps(fits, take, r2, m2[1]);
      assert m1[1..][1..] == m1[2..] == m2[2..] == m2[1..][1..];
      TailKeepsApart(fits, take, take(r1, m1[1]), take(r2, m2[1]), m1[2..]);
    }
  }

  predicate Fits(r: bv32) { r <= 0xffff }

  lemma CcittRemembers(r: bv32, s: bv32, c: bv8)
    requires Fits(r) && Fits(s) && TakeCcitt(r, c) == TakeCcitt(s, c)
    ensures r == s
  {
    PlaceStays16(c);
    XorStays16(r, High(c)); XorStays16(s, High(c));
    Msb8Injects(Xor(r, High(c)), Xor(s, High(c)));
    XorCommutes(r, High(c)); XorCommutes(s, High(c));
    XorCancels(High(c), r, s);
  }

  lemma BacnetRemembers(r: bv32, s: bv32, c: bv8)
    requires Fits(r) && Fits(s) && TakeBacnet(r, c) == TakeBacnet(s, c)
    ensures r == s
  {
    PlaceStays16(c);
    XorStays16(r, Low(c)); XorStays16(s, Low(c));
    Lsb8Injects(Xor(r, Low(c)), Xor(s, Low(c)));
    XorCommutes(r, Low(c)); XorCommutes(s, Low(c));
    XorCancels(Low(c), r, s);
  }

  lemma CcittTwoOctets(r: bv32, c1: bv8, c2: bv8, d1: bv8, d2: bv8)
    requires Fits(r) && TakeCcitt(TakeCcitt(r, c1), c2) == TakeCcitt(TakeCcitt(r, d1), d2)
    ensures c1 == d1 && c2 == d2
  {
    var s, t := TakeCcitt(r, c1), TakeCcitt(r, d1);
    TakeCcittStays16(r, c1); TakeCcittStays16(r, d1);
    PlaceStays16(c2); PlaceStays16(d2);
    XorStays16(s, High(c2)); XorStays16(t, High(d2));
    Msb8Injects(Xor(s, High(c2)), Xor(t, High(d2)));
    CcittSeparates(r, c1, c2, d1, d2);
  }

  lemma BacnetTwoOctets(r: bv32, c1: bv8, c2: bv8, d1: bv8, d2: bv8)
    requires Fits(r) && TakeBacnet(TakeBacnet(r, c1), c2) == TakeBacnet(TakeBacnet(r, d1), d2)
    ensures c1 == d1 && c2 == d2
  {
    var s, t := TakeBacnet(r, c1), TakeBacnet(r, d1);
    TakeBacnetStays16(r, c1); TakeBacnetStays16(r, d1);
    PlaceStays16(c2); PlaceStays16(d2);
    XorStays16(s, Low(c2)); XorStays16(t, Low(d2));
    Lsb8Injects(Xor(s, Low(c2)), Xor(t, Low(d2)));
    BacnetSeparates(r, c1, c2, d1, d2);
  }

  lemma CcittDetects()
    ensures Detector(Fits, TakeCcitt)
  {
    forall r, c ensures Keeps(Fits, TakeCcitt, r, c) { TakeCcittStays16(r, c); }
    forall r, s, c ensures Remembers(Fits, TakeCcitt, r, s, c) {
      if Fits(r) && Fits(s) && TakeCcitt(r, c) == TakeCcitt(s, c) { CcittRemembers(r, s, c); }
    }
    forall r, c1, c2, d1, d2 ensures Separates(Fits, TakeCcitt, r, c1, c2, d1, d2) {
      if Fits(r) && TakeCcitt(TakeCcitt(r, c1), c2) == TakeCcitt(TakeCcitt(r, d1), d2) {
        CcittTwoOctets(r, c1, c2, d1, d2);
      }
    }
  }

  lemma BacnetDetects()
    ensures Detector(Fits, TakeBacnet)
  {
    forall r, c ensures Keeps(Fits, TakeBacnet, r, c) { if Fits(r) { TakeBacnetStays16(r, c); } }
    forall r, s, c ensures Remembers(Fits, TakeBacnet, r, s, c) {
      if Fits(r) && Fits(s) && TakeBacnet(r, c) == TakeBacnet(s, c) { BacnetRemembers(r, s, c); }
    }
    forall r, c1, c2, d1, d2 ensures Separates(Fits, TakeBacnet, r, c1, c2, d1, d2) {
      if Fits(r) && TakeBacnet(TakeBacnet(r, c1), c2) == TakeBacnet(TakeBacnet(r, d1), d2) {
        BacnetTwoOctets(r, c1, c2, d1, d2);
      }
    }
  }

  // ---------------------------------------------------------------- detection, on octets

  lemma BitsInject(m1: seq<byte>, m2: seq<byte>)
    requires Bits(m1) == Bits(m2)
    ensures m1 == m2
  {
    forall i | 0 <= i < |m1| ensures m1[i] == m2[i] {
      assert Bits(m1)[i] == Bits(m2)[i];
      assert Octet(m1[i]) as int == m1[i] && Octet(m2[i]) as int == m2[i];
    }
  }

  lemma {:induction false} RunFits(take: (bv32, bv8) -> bv32, r: bv32, msg: seq<bv8>)
    requires Detector(Fits, take) && Fits(r)
    ensures Fits(Run(take, r, msg))
    decreases |msg|
  {
    if msg != [] {
      assert Keeps(Fits, take, r, msg[0]);
      RunFits(take, take(r, msg[0]), msg[1..]);
    }
  }

  lemma IntInjects(v: bv16, w: bv16)
    requires v as int == w as int
    ensures v == w
  {
    assert v == (v as int) as bv16;
  }

  lemma NarrowInjects(x: bv32, y: bv32)
    requires Fits(x) && Fits(y)
    requires Narrow(x) == Narrow(y) || Inverted(x) == Inverted(y)
    ensures x == y
  {}

  /** Two octet strings of one length that differ only within two consecutive octets. */
  ghost predicate Burst(m1: seq<byte>, m2: seq<byte>, i: nat) {
    && |m1| == |m2| && m1 != m2
    && forall j :: 0 <= j < |m1| && j != i && j != i + 1 ==> m1[j] == m2[j]
  }

  lemma FitsAll()
    ensures Fits(0) && Fits(0xffff)
  {
  }

  lemma SameXmodemCheck(m1: seq<byte>, m2: seq<byte>)
    requires Fits(SerialCcitt(0, Bits(m1))) && Fits(SerialCcitt(0, Bits(m2))) && XmodemCrc(m1) == XmodemCrc(m2)
    ensures SerialCcitt(0, Bits(m1)) == SerialCcitt(0, Bits(m2))
  {
    hide SerialCcitt, Narrow, Fits;
    var r1, r2 := SerialCcitt(0, Bits(m1)), SerialCcitt(0, Bits(m2));
    IntInjects(Narrow(r1), Narrow(r2));
    NarrowInjects(r1, r2);
  }

  lemma SameDataCheck(m1: seq<byte>, m2: seq<byte>)
    requires Fits(SerialBacnet(0xffff, Bits(m1))) && Fits(SerialBacnet(0xffff, Bits(m2))) && DataCrc(m1) == DataCrc(m2)
    ensures SerialBacnet(0xffff, Bits(m1)) == SerialBacnet(0xffff, Bits(m2))
  {
    hide SerialBacnet, Inverted, Fits;
    var r1, r2 := SerialBacnet(0xffff, Bits(m1)), SerialBacnet(0xffff, Bits(m2));
    IntInjects(Inverted(r1), Inverted(r2));
    NarrowInjects(r1, r2);
  }

  /** XMODEM's CRC-16 tells them apart. */
  lemma XmodemCrcDetectsBurst(m1: seq<byte>, m2: seq<byte>, i: nat)
    requires Burst(m1, m2, i)
    ensures XmodemCrc(m1) != XmodemCrc(m2)
  {
    hide XmodemCrc, TakeCcitt, Run, Octet, Detector, Fits;
    FitsAll();
    var b1, b2 := Bits(m1), Bits(m2);
    if b1 == b2 { BitsInject(m1, m2); }
    CcittDetects();
    BurstShows(Fits, TakeCcitt, 0, b1, b2, i);
    RunFits(TakeCcitt, 0, b1);
    RunFits(TakeCcitt, 0, b2);
    if XmodemCrc(m1) == XmodemCrc(m2) { SameXmodemCheck(m1, m2); }
  }

  /** So does the BACnet data CRC. */
  lemma DataCrcDetectsBurst(m1: seq<byte>, m2: seq<byte>, i: nat)
    requires Burst(m1, m2, i)
    ensures DataCrc(m1) != DataCrc(m2)
  {
    hide DataCrc, TakeBacnet, Run, Octet, Detector, Fits;
    FitsAll();
    var b1, b2 := Bits(m1), Bits(m2);
    if b1 == b2 { BitsInject(m1, m2); }
    BacnetDetects();
    BurstShows(Fits, TakeBacnet, 0xffff, b1, b2, i);
    RunFits(TakeBacnet, 0xffff, b1);
    RunFits(TakeBacnet, 0xffff, b2);
    if DataCrc(m1) == DataCrc(m2) { SameDataCheck(m1, m2); }
  }

  lemma Hdr8Injects(a: bv8, b: bv8)
    requires Hdr8(a) == Hdr8(b)
    ensures a == b
  {
  }

  lemma OctetXorInjects(r: bv8, s: bv8, c: bv8, d: bv8)
    ensures r ^ c == s ^ c ==> r == s
    ensures r ^ c == r ^ d ==> c == d
  {
  }

  lemma {:induction false} HeaderTailKeepsApart(r: bv8, s: bv8, tail: seq<bv8>)
    requires r != s
    ensures SerialHeader(r, tail) != SerialHeader(s, tail)
    decreases |tail|
  {
    hide Hdr8;
    if tail != [] {
      OctetXorInjects(r, s, tail[0], tail[0]);
      if TakeHeader(r, tail[0]) == TakeHeader(s, tail[0]) { Hdr8Injects(r ^ tail[0], s ^ tail[0]); }
      HeaderTailKeepsApart(TakeHeader(r, tail[0]), TakeHeader(s, tail[0]), tail[1..]);
    }
  }

  lemma {:induction false} HeaderOctetShows(r: bv8, m: seq<bv8>, i: nat, c: bv8)
    requires i < |m| && c != m[i]
    ensures SerialHeader(r, m) != SerialHeader(r, m[i := c])
    decreases |m|
  {
    hide Hdr8;
    var m2 := m[i := c];
    if i > 0 {
      assert m2[1..] == m[1..][i - 1 := c];
      HeaderOctetShows(TakeHeader(r, m[0]), m[1..], i - 1, c);
    } else {
      assert m2[1..] == m[1..];
      OctetXorInjects(r, r, m[0], c);
      if TakeHeader(r, m[0]) == TakeHeader(r, c) { Hdr8Injects(r ^ m[0], r ^ c); }
      HeaderTailKeepsApart(TakeHeader(r, m[0]), TakeHeader(r, c), m[1..]);
    }
  }

  lemma ComplementInjects(v: bv8, w: bv8)
    requires (!v) as int == (!w) as int
    ensures v == w
  {
    assert !v == ((!v) as int) as bv8 == ((!w) as int) as bv8 == !w;
    assert !!v == v && !!w == w;
  }

  /** The header check tells any change of one octet. */
  lemma HeaderCrcDetectsOctet(m: seq<byte>, i: nat, c: byte)
    requires i < |m| && c != m[i]
    ensures HeaderCrc(m[i := c]) != HeaderCrc(m)
  {
    hide Octet, SerialHeader;
    var b := Bits(m);
    assert Bits(m[i := c]) == b[i := Octet(c)];
    assert Octet(c) as int == c && Octet(m[i]) as int == m[i];
    HeaderOctetShows(0xff, b, i, Octet(c));
    var v, w := SerialHeader(0xff, b), SerialHeader(0xff, b[i := Octet(c)]);
    if (!v) as int == (!w) as int { ComplementInjects(v, w); }
  }

  // ---------------------------------------------------------------- checks that need escaping

  lemma OctetIs(c: byte, b: bv8)
    requires b as int == c
    ensures Octet(c) == b
  {
  }

  lemma OctetAtMost(c: byte, k: bv8)
    requires c <= k as int
    ensures Octet(c) <= k
  {
  }

  lemma SpecialOctet(c: byte)
    requires Special(c)
    ensures Octet(c) == 0x10 || Octet(c) == 0x11 || Octet(c) == 0x13
  {
    assert Octet(0x10) == 0x10 && Octet(0x11) == 0x11 && Octet(0x13) == 0x13;
  }

  lemma SpecialValue(b: bv8)
    requires Special(b as int)
    ensures b == 0x10 || b == 0x11 || b == 0x13
  {
    OctetIs(b as int, b);
    SpecialOctet(b as int);
  }

  lemma TypeOctet(t: byte)
    requires t <= 0x0f || t == 0x14 || t == 0x15
    ensures Octet(t) <= 0x0f || Octet(t) == 0x14 || Octet(t) == 0x15
  {
    if t <= 0x0f { OctetAtMost(t, 0x0f); }
    assert Octet(0x14) == 0x14 && Octet(0x15) == 0x15;
  }

  lemma HeaderNotBoth(t: bv8, h: bv8, l: bv8)
    requires (t <= 0x0f || t == 0x14 || t == 0x15) && h <= 1 && (l == 0x10 || l == 0x11 || l == 0x13)
    ensures var c := !TakeHeader(TakeHeader(TakeHeader(0xff, t), h), l); c != 0x10 && c != 0x11 && c != 0x13
  {
  }

  lemma RunStep<R, O>(take: (R, O) -> R, r: R, msg: seq<O>)
    requires msg != []
    ensures Run(take, r, msg) == Run(take, take(r, msg[0]), msg[1..])
  {
  }

  lemma RunNothing<R, O>(take: (R, O) -> R, r: R, msg: seq<O>)
    requires msg == []
    ensures Run(take, r, msg) == r
  {
  }

  lemma HeaderOfThree(a: byte, b: byte, c: byte)
    ensures HeaderCrc([a, b, c]) == (!TakeHeader(TakeHeader(TakeHeader(0xff, Octet(a)), Octet(b)), Octet(c))) as int
  {
    hide TakeHeader, Octet, Run;
    var m := Bits([a, b, c]);
    var r := TakeHeader(0xff, Octet(a));
    var s := TakeHeader(r, Octet(b));
    RunStep(TakeHeader, 0xff, m);
    RunStep(TakeHeader, r, m[1..]);
    RunStep(TakeHeader, s, m[2..]);
    RunNothing(TakeHeader, TakeHeader(s, Octet(c)), m[3..]);
    assert m[1..][1..] == m[2..] && m[2..][1..] == m[3..];
  }

  /** For no frame type and no length that the link allows are the low octet of the length and the check of
      the header both escaped. */
  lemma LengthOrCheckEscaped(t: byte, h: byte, l: byte)
    requires (t <= 0x0f || t == 0x14 || t == 0x15) && h <= 1 && Special(l)
    ensures !Special(HeaderCrc([t, h, l]))
  {
    hide TakeHeader, Octet, HeaderCrc;
    HeaderOfThree(t, h, l);
    TypeOctet(t);
    OctetAtMost(h, 1);
    SpecialOctet(l);
    HeaderNotBoth(Octet(t), Octet(h), Octet(l));
    var c := !TakeHeader(TakeHeader(TakeHeader(0xff, Octet(t)), Octet(h)), Octet(l));
    if Special(c as int) { SpecialValue(c); }
  }

  /** Sixteen octets that are all escaped, and so are both octets of their check. */
  const ESCAPED: seq<byte> :=
    [0x10, 0x10, 0x10, 0x10, 0x10, 0x10, 0x10, 0x11, 0x10, 0x11, 0x13, 0x11, 0x11, 0x11, 0x10, 0x13]

  function TakeFour(r: bv32, a: bv8, b: bv8, c: bv8, d: bv8): bv32 {
    TakeBacnet(TakeBacnet(TakeBacnet(TakeBacnet(r, a), b), c), d)
  }

  lemma DataFour(r: bv32, m: seq<bv8>)
    requires |m| >= 4
    ensures SerialBacnet(r, m) == SerialBacnet(TakeFour(r, m[0], m[1], m[2], m[3]), m[4..])
  {
    hide TakeBacnet, Run;
    var s := TakeBacnet(r, m[0]);
    var t := TakeBacnet(s, m[1]);
    RunStep(TakeBacnet, r, m);
    RunStep(TakeBacnet, s, m[1..]);
    RunStep(TakeBacnet, t, m[2..]);
    RunStep(TakeBacnet, TakeBacnet(t, m[2]), m[3..]);
    assert m[1..][1..] == m[2..] && m[2..][1..] == m[3..] && m[3..][1..] == m[4..];
  }

  lemma Four0()
    ensures TakeFour(0xffff, 0x10, 0x10, 0x10, 0x10) == 0xc005
  {
    assert TakeBacnet(0xffff, 0x10) == 0x1f06;
    assert TakeBacnet(0x1f06, 0x10) == 0x75a8;
    assert TakeBacnet(0x75a8, 0x10) == 0x39b6;
    assert TakeBacnet(0x39b6, 0x10) == 0xc005;
  }

  lemma Four1()
    ensures TakeFour(0xc005, 0x10, 0x10, 0x10, 0x11) == 0xb660
  {
    assert TakeBacnet(0xc005, 0x10) == 0x47ec;
    assert TakeBacnet(0x47ec, 0x10) == 0x3da4;
    assert TakeBacnet(0x3da4, 0x10) == 0xf392;
    assert TakeBacnet(0xf392, 0x11) == 0xb660;
  }

  lemma Four2()
    ensures TakeFour(0xb660, 0x10, 0x11, 0x13, 0x11) == 0x6766
  {
    assert TakeBacnet(0xb660, 0x10) == 0x7331;
    assert TakeBacnet(0x7331, 0x11) == 0x2171;
    assert TakeBacnet(0x2171, 0x13) == 0x4035;
    assert TakeBacnet(0x4035, 0x11) == 0x6766;
  }

  lemma Four3()
    ensures TakeFour(0x6766, 0x11, 0x11, 0x10, 0x13) == 0xecee
  {
    assert TakeBacnet(0x6766, 0x11) == 0x075f;
    assert TakeBacnet(0x075f, 0x11) == 0xab7d;
    assert TakeBacnet(0xab7d, 0x10) == 0xb848;
    assert TakeBacnet(0xb848, 0x13) == 0xecee;
  }

  lemma LastFour()
    ensures Inverted(0xecee) as int == 0x1311
  {
  }

  lemma SpecialOctets()
    ensures Octet(0x10) == 0x10 && Octet(0x11) == 0x11 && Octet(0x13) == 0x13
  {
  }

  lemma EscapedCheck()
    ensures DataCrc(ESCAPED) == 0x1311
  {
    hide TakeFour, Octet, Run, Inverted;
    SpecialOctets();
    var m := Bits(ESCAPED);
    DataFour(0xffff, m);
    DataFour(0xc005, m[4..]);
    DataFour(0xb660, m[4..][4..]);
    DataFour(0x6766, m[4..][4..][4..]);
    RunNothing(TakeBacnet, 0xecee, m[4..][4..][4..][4..]);
    Four0();
    Four1();
    Four2();
    Four3();
    LastFour();
  }

  // ---------------------------------------------------------------- published check values

  lemma RunThree<R, O>(take: (R, O) -> R, r: R, m: seq<O>)
    requires |m| >= 3
    ensures Run(take, r, m) == Run(take, take(take(take(r, m[0]), m[1]), m[2]), m[3..])
  {
    var s := take(r, m[0]);
    RunStep(take, r, m);
    RunStep(take, s, m[1..]);
    RunStep(take, take(s, m[1]), m[2..]);
    assert m[1..][1..] == m[2..] && m[2..][1..] == m[3..];
  }

  lemma OctetsAre(m: seq<byte>, b: seq<bv8>)
    requires |m| == |b| && forall i :: 0 <= i < |m| ==> b[i] as int == m[i]
    ensures Bits(m) == b
  {
    forall i | 0 <= i < |m| ensures Octet(m[i]) == b[i] { OctetIs(m[i], b[i]); }
  }

  lemma Ccitt123()
    ensures TakeCcitt(TakeCcitt(TakeCcitt(0, 0x31), 0x32), 0x33) == 0x9752
  {
    assert TakeCcitt(0, 0x31) == 0x2672;
    assert TakeCcitt(0x2672, 0x32) == 0x20b5;
  }

  lemma Ccitt456()
    ensures TakeCcitt(TakeCcitt(TakeCcitt(0x9752, 0x34), 0x35), 0x36) == 0x20e4
  {
    assert TakeCcitt(0x9752, 0x34) == 0xd789;
    assert TakeCcitt(0xd789, 0x35) == 0x546c;
  }

  lemma Ccitt789()
    ensures TakeCcitt(TakeCcitt(TakeCcitt(0x20e4, 0x37), 0x38), 0x39) == 0x31c3
    ensures Narrow(0x31c3) as int == 0x31c3
  {
    assert TakeCcitt(0x20e4, 0x37) == 0x86d6;
    assert TakeCcitt(0x86d6, 0x38) == 0x9015;
  }

  /** XMODEM's check of the digits 1 to 9. */
  lemma XmodemCheckValue()
    ensures XmodemCrc([0x31, 0x32, 0x33, 0x34, 0x35, 0x36, 0x37, 0x38, 0x39]) == 0x31c3
  {
    hide TakeCcitt, Octet, Run, Narrow;
    var m: seq<bv8> := [0x31, 0x32, 0x33, 0x34, 0x35, 0x36, 0x37, 0x38, 0x39];
    OctetsAre([0x31, 0x32, 0x33, 0x34, 0x35, 0x36, 0x37, 0x38, 0x39], m);
    RunThree(TakeCcitt, 0, m);
    RunThree(TakeCcitt, 0x9752, m[3..]);
    RunThree(TakeCcitt, 0x20e4, m[3..][3..]);
    RunNothing(TakeCcitt, 0x31c3, m[3..][3..][3..]);
    Ccitt123();
    Ccitt456();
    Ccitt789();
  }

  lemma HeaderExample()
    ensures TakeHeader(TakeHeader(TakeHeader(0xff, 0x00), 0x10), 0x05) == 0xbc
    ensures TakeHeader(TakeHeader(0xbc, 0x00), 0x00) == 0x73
    ensures !(0x73 as bv8) == 0x8c && (0x8c as bv8) as int == 0x8c
  {
  }

  /** The examples of Annex G: header octets 00 10 05 00 00, and data octets 01 22 30. */
  lemma HeaderCheckValue()
    ensures HeaderCrc([0x00, 0x10, 0x05, 0x00, 0x00]) == 0x8c
  {
    hide TakeHeader, Octet, Run;
    var m: seq<bv8> := [0x00, 0x10, 0x05, 0x00, 0x00];
    OctetsAre([0x00, 0x10, 0x05, 0x00, 0x00], m);
    RunThree(TakeHeader, 0xff, m);
    RunStep(TakeHeader, 0xbc, m[3..]);
    RunStep(TakeHeader, TakeHeader(0xbc, 0x00), m[4..]);
    assert m[3..][1..] == m[4..] && m[4..][1..] == [];
    RunNothing(TakeHeader, 0x73, m[4..][1..]);
    HeaderExample();
  }

  lemma DataExample()
    ensures TakeBacnet(TakeBacnet(TakeBacnet(0xffff, 0x01), 0x22), 0x30) == 0x42ef
    ensures Inverted(0x42ef) as int == 0xbd10
  {
    assert TakeBacnet(0xffff, 0x01) == 0x1e0e;
    assert TakeBacnet(0x1e0e, 0x22) == 0xeb70;
  }

  lemma DataCheckValue()
    ensures DataCrc([0x01, 0x22, 0x30]) == 0xbd10
  {
    hide TakeBacnet, Octet, Run, Inverted;
    var m: seq<bv8> := [0x01, 0x22, 0x30];
    OctetsAre([0x01, 0x22, 0x30], m);
    RunThree(TakeBacnet, 0xffff, m);
    RunNothing(TakeBacnet, 0x42ef, m[3..]);
    DataExample();
  }
}
