/**
 * Bit vectors in words: shifts, concatenation and comparison a word at a time, and the numbers and bit
 * sequences that the words stand for. Words are numbers here; `<<`, `>>`, `|` and `^` of the machine are
 * spelled out on them.
 */
module BitVec {
  import opened Bytes

  // ---------------------------------------------------------------- powers of two

  function Pow2(k: nat): (p: nat)
    ensures p >= 1
  {
    if k == 0 then 1 else 2 * Pow2(k - 1)
  }

  lemma {:induction false} Pow2Sum(a: nat, b: nat)
    ensures Pow2(a + b) == Pow2(a) * Pow2(b)
  {
    if a > 0 {
      Pow2Sum(a - 1, b);
      assert Pow2(a + b) == 2 * Pow2(a - 1 + b);
      Associate(2, Pow2(a - 1), Pow2(b));
    }
  }

  lemma Associate(a: int, b: int, c: int)
    ensures a * (b * c) == (a * b) * c
  {
  }

  /** q times m and a rest below m. */
  lemma DivMod(q: int, m: nat, r: nat)
    requires r < m
    ensures (q * m + r) / m == q && (q * m + r) % m == r
  {
    var d := q * m + r;
    assert d == (d / m) * m + d % m;
    if d / m < q {
      LessThan(d / m + 1, q, m);
    } else if d / m > q {
      LessThan(q + 1, d / m, m);
    }
  }

  lemma LessThan(a: int, b: int, m: nat)
    requires a <= b
    ensures a * m <= b * m
  {
  }

  lemma Parts(x: nat, m: nat)
    requires m > 0
    ensures x == (x / m) * m + x % m && x % m < m && x / m >= 0
  {
  }

  // ---------------------------------------------------------------- machine words

  /** `a | b`. */
  function Or(a: nat, b: nat): nat {
    if a == 0 && b == 0 then 0
    else (if a % 2 == 1 || b % 2 == 1 then 1 else 0) + 2 * Or(a / 2, b / 2)
  }

  lemma {:induction false} OrZero(a: nat)
    ensures Or(a, 0) == a && Or(0, a) == a
  {
    if a > 0 { OrZero(a / 2); }
  }

  /** Bits above k and bits below k do not meet. */
  lemma {:induction false} OrIsSum(p: nat, k: nat, q: nat)
    requires q < Pow2(k)
    ensures Or(p * Pow2(k), q) == p * Pow2(k) + q && Or(q, p * Pow2(k)) == p * Pow2(k) + q
  {
    if k == 0 {
      OrZero(p);
    } else {
      var h := p * Pow2(k - 1);
      assert p * Pow2(k) == 2 * h;
      OrIsSum(p, k - 1, q / 2);
      if h == 0 && q == 0 {
      } else {
        assert (2 * h) / 2 == h && (2 * h) % 2 == 0;
      }
    }
  }

  /** `x << b` in a word of w bits, and `x >> b`. */
  function Shl(w: nat, x: nat, b: nat): nat {
    (x * Pow2(b)) % Pow2(w)
  }

  function Shr(x: nat, b: nat): nat {
    Div(x, Pow2(b))
  }

  function Div(x: nat, m: nat): nat
    requires m > 0
  {
    x / m
  }

  /** What a left shift keeps and what it moves out. */
  lemma ShlParts(w: nat, x: nat, b: nat)
    requires b <= w
    ensures Shl(w, x, b) == (x % Pow2(w - b)) * Pow2(b)
    ensures x * Pow2(b) == Shr(x, w - b) * Pow2(w) + Shl(w, x, b)
    ensures Shl(w, x, b) < Pow2(w)
  {
    var m, n := Pow2(w - b), Pow2(b);
    Pow2Sum(w - b, b);
    Parts(x, m);
    var hi, lo := x / m, x % m;
    assert x * n == hi * (m * n) + lo * n by { Distribute(hi, m, lo, n); }
    LessThan(lo + 1, m, n);
    assert lo * n < m * n by { assert (lo + 1) * n == lo * n + n; }
    DivMod(hi, m * n, lo * n);
  }

  lemma Successor(w: int, n: int)
    ensures w * (n + 1) == w + w * n
  {
  }

  lemma Commute(a: int, b: int)
    ensures a * b == b * a
  {
  }

  lemma Distribute(hi: int, m: int, lo: int, n: int)
    ensures (hi * m + lo) * n == hi * (m * n) + lo * n
  {
  }

  /** One step of a left shift through words: what comes in below, what goes out above. */
  lemma ShiftStep(w: nat, x: nat, b: nat, c: nat)
    requires b <= w && c < Pow2(b)
    ensures Or(Shl(w, x, b), c) == Or(c, Shl(w, x, b)) == Shl(w, x, b) + c < Pow2(w)
    ensures Shl(w, x, b) + c + Pow2(w) * Shr(x, w - b) == x * Pow2(b) + c
  {
    hide Pow2, Or, Shl, Shr;
    ShlParts(w, x, b);
    var m, n := Pow2(w - b), Pow2(b);
    Parts(x, m);
    var lo := x % m;
    OrIsSum(lo, b, c);
    Pow2Sum(w - b, b);
    LessThan(lo + 1, m, n);
    Distribute(1, lo, 1, n);
    Commute(Pow2(w), Shr(x, w - b));
  }

  lemma ShrBelow(x: nat, w: nat, b: nat)
    requires b <= w && x < Pow2(w)
    ensures Shr(x, w - b) < Pow2(b)
  {
    Pow2Sum(b, w - b);
    var m := Pow2(w - b);
    Parts(x, m);
    if x / m >= Pow2(b) { LessThan(Pow2(b), x / m, m); }
  }

  // ---------------------------------------------------------------- numbers

  predicate Words(w: nat, s: seq<nat>) {
    forall i :: 0 <= i < |s| ==> s[i] < Pow2(w)
  }

  /** The number of a vector of w-bit words, lowest first. */
  function Number(w: nat, s: seq<nat>): nat {
    if s == [] then 0 else Number(w, s[..|s| - 1]) + Pow2(w * (|s| - 1)) * s[|s| - 1]
  }

  lemma NumberSnoc(w: nat, s: seq<nat>, x: nat)
    ensures Number(w, s + [x]) == Number(w, s) + Pow2(w * |s|) * x
  {
    assert (s + [x])[..|s|] == s;
  }

  lemma {:induction false} NumberBelow(w: nat, s: seq<nat>)
    requires Words(w, s)
    ensures Number(w, s) < Pow2(w * |s|)
    decreases |s|
  {
    hide Pow2;
    if s != [] {
      var n := |s| - 1;
      NumberBelow(w, s[..n]);
      var p, m := Pow2(w * n), Pow2(w);
      LessThan(s[n] + 1, m, p);
      Pow2Sum(w, w * n);
      Successor(w, n);
      Distribute(1, s[n], 1, p);
      Commute(p, s[n]);
    }
  }

  // ---------------------------------------------------------------- shifts

  /** A factor common to both terms. */
  lemma Factor(p: int, a: int, b: int)
    ensures p * a + p * b == p * (a + b)
  {
  }

  /** One more word of a left shift: c0 is what the words before have moved out, e what came in first. */
  lemma LeftStep(w: nat, b: nat, d: seq<nat>, s: seq<nat>, c0: nat, x: nat, out: nat, c1: nat, e: nat)
    requires |d| == |s| && Number(w, d) + Pow2(w * |d|) * c0 == Number(w, s) * Pow2(b) + e
    requires out + Pow2(w) * c1 == x * Pow2(b) + c0
    ensures Number(w, d + [out]) + Pow2(w * (|d| + 1)) * c1 == Number(w, s + [x]) * Pow2(b) + e
  {
    hide Pow2, Number;
    var p, m, f := Pow2(w * |d|), Pow2(w), Pow2(b);
    NumberSnoc(w, d, out);
    NumberSnoc(w, s, x);
    Successor(w, |d|);
    Pow2Sum(w, w * |d|);
    calc {
      Number(w, d) + p * out + (m * p) * c1;
      { Commute(m, p); Associate(p, m, c1); Factor(p, out, m * c1); }
      Number(w, d) + p * (x * f + c0);
      { Factor(p, x * f, c0); }
      Number(w, s) * f + e + p * (x * f);
      { Associate(p, x, f); Distribute(1, Number(w, s), p * x, f); }
      (Number(w, s) + p * x) * f + e;
    }
  }

  lemma LeftEnd(w: nat, b: nat, d: seq<nat>, s: seq<nat>, c: nat)
    requires Words(w, d) && Number(w, d) + Pow2(w * |d|) * c == Number(w, s) * Pow2(b)
    ensures Number(w, d) == (Number(w, s) * Pow2(b)) % Pow2(w * |d|)
  {
    hide Pow2, Number;
    NumberBelow(w, d);
    Commute(Pow2(w * |d|), c);
    DivMod(c, Pow2(w * |d|), Number(w, d));
  }

  lemma LeftBegin(w: nat, b: nat)
    ensures Number(w, []) + Pow2(w * 0) * 0 == Number(w, []) * Pow2(b)
  {
  }

  /** `vec_lshift`: the words of the vector, as one number, times 2^bits; also in place. */
  method VecLshift(dst: array<nat>, src: array<nat>, len: nat, bits: nat)
    requires 1 <= bits <= 31 && (len + 31) / 32 <= dst.Length && (len + 31) / 32 <= src.Length
    requires Words(32, src[..(len + 31) / 32])
    modifies dst
    ensures var n := (len + 31) / 32;
      && Words(32, dst[..n])
      && Number(32, dst[..n]) == (Number(32, old(src[..n])) * Pow2(bits)) % Pow2(32 * n)
      && dst[n..] == old(dst[n..])
  {
    hide Pow2, Number, Or, Shl, Shr;
    var n := (len + 31) / 32;
    var x0 := 0;
    ShrBelowAll(32, bits);
    LeftBegin(32, bits);
    for i := 0 to n
      invariant Shr(x0, 32 - bits) < Pow2(bits) && Words(32, dst[..i])
      invariant Number(32, dst[..i]) + Pow2(32 * i) * Shr(x0, 32 - bits) == Number(32, old(src[..i])) * Pow2(bits)
      invariant forall k :: i <= k < src.Length ==> src[k] == old(src[k])
      invariant dst[n..] == old(dst[n..])
    {
      var x1 := src[i];
      assert x1 == old(src[..n])[i];
      ghost var d, s := dst[..i], old(src[..i]);
      ShiftStep(32, x1, bits, Shr(x0, 32 - bits));
      var out := Or(Shl(32, x1, bits), Shr(x0, 32 - bits));
      LeftStep(32, bits, d, s, Shr(x0, 32 - bits), x1, out, Shr(x1, 32 - bits), 0);
      dst[i] := out;
      assert dst[..i + 1] == d + [out] && old(src[..i + 1]) == s + [x1];
      ShrBelow(x1, 32, bits);
      x0 := x1;
    }
    LeftEnd(32, bits, dst[..n], old(src[..n]), Shr(x0, 32 - bits));
  }

  lemma ShrBelowAll(w: nat, b: nat)
    requires b <= w
    ensures Shr(0, w - b) < Pow2(b) && Shr(0, w - b) == 0
  {
  }

  /** One more word of a right shift: c0 is the last word read, shifted; low what has fallen out. */
  lemma RightStep(w: nat, b: nat, d: seq<nat>, s: seq<nat>, c0: nat, x: nat, out: nat, c1: nat, low: nat)
    requires b <= w && |s| == |d| + 1 && Number(w, s) == low + Pow2(b) * (Number(w, d) + Pow2(w * |d|) * c0)
    requires out + Pow2(w) * c1 == x * Pow2(w - b) + c0
    ensures Number(w, s + [x]) == low + Pow2(b) * (Number(w, d + [out]) + Pow2(w * (|d| + 1)) * c1)
  {
    hide Pow2, Number;
    var p, m, f, g := Pow2(w * |d|), Pow2(w), Pow2(b), Pow2(w - b);
    var nd := Number(w, d);
    NumberSnoc(w, d, out);
    NumberSnoc(w, s, x);
    Successor(w, |d|);
    Pow2Sum(w, w * |d|);
    Pow2Sum(b, w - b);
    calc {
      low + f * (nd + p * out + (m * p) * c1);
      { Commute(m, p); Associate(p, m, c1); Factor(p, out, m * c1); }
      low + f * (nd + p * (x * g + c0));
      { Factor(p, x * g, c0); }
      low + f * ((nd + p * c0) + p * (x * g));
      { Factor(f, nd + p * c0, p * (x * g)); }
      Number(w, s) + f * (p * (x * g));
      { Rearrange(f, p, x, g); }
      Number(w, s) + (f * g * p) * x;
    }
  }

  lemma Rearrange(f: int, p: int, x: int, g: int)
    ensures f * (p * (x * g)) == (f * g * p) * x
  {
    Associate(p, x, g);
    Commute(p * x, g);
    Associate(f, g, p * x);
    Associate(f * g, p, x);
  }

  lemma RightEnd(w: nat, b: nat, d: seq<nat>, s: seq<nat>, c0: nat, low: nat)
    requires Number(w, s) == low + Pow2(b) * (Number(w, d) + Pow2(w * |d|) * c0) && low < Pow2(b)
    ensures Number(w, d + [c0]) == Number(w, s) / Pow2(b)
  {
    hide Pow2, Number;
    NumberSnoc(w, d, c0);
    Commute(Pow2(b), Number(w, d + [c0]));
    DivMod(Number(w, d + [c0]), Pow2(b), low);
  }

  lemma RightBegin(w: nat, b: nat, x: nat)
    ensures x % Pow2(b) < Pow2(b) && Number(w, [x]) == x % Pow2(b) + Pow2(b) * (Number(w, []) + Pow2(w * 0) * Shr(x, b))
  {
    Parts(x, Pow2(b));
    assert w * 0 == 0 && [x][..0] == [];
    Commute(Pow2(b), x / Pow2(b));
  }

  /** The word that a turn of the right shift writes. */
  lemma RightTurn(w: nat, b: nat, d: seq<nat>, s: seq<nat>, x0: nat, x1: nat, low: nat)
    requires b <= w && |s| == |d| + 1 && x0 < Pow2(w)
    requires Number(w, s) == low + Pow2(b) * (Number(w, d) + Pow2(w * |d|) * Shr(x0, b))
    ensures var out := Or(Shr(x0, b), Shl(w, x1, w - b));
      && out < Pow2(w)
      && Number(w, s + [x1]) == low + Pow2(b) * (Number(w, d + [out]) + Pow2(w * (|d| + 1)) * Shr(x1, b))
  {
    hide Pow2, Number, Or, Shl, Shr;
    ShrBelow(x0, w, w - b);
    ShiftStep(w, x1, w - b, Shr(x0, b));
    RightStep(w, b, d, s, Shr(x0, b), x1, Or(Shr(x0, b), Shl(w, x1, w - b)), Shr(x1, b), low);
  }

  lemma ShrAtMost(x: nat, b: nat)
    ensures Shr(x, b) <= x
  {
    Parts(x, Pow2(b));
    LessThan(1, Pow2(b), x / Pow2(b));
    Commute(Pow2(b), x / Pow2(b));
  }

  lemma WordAt(w: nat, s: seq<nat>, i: nat)
    requires Words(w, s) && i < |s|
    ensures s[i] < Pow2(w)
  {
  }

  lemma NoWords(w: nat, s: seq<nat>)
    requires s == []
    ensures Words(w, s)
  {
  }

  lemma WordsSnoc(w: nat, s: seq<nat>, x: nat)
    requires Words(w, s) && x < Pow2(w)
    ensures Words(w, s + [x])
  {
  }

  /** `vec_rshift`: the words of the vector, as one number, divided by 2^bits; also in place. */
  method VecRshift(dst: array<nat>, src: array<nat>, len: nat, bits: nat)
    requires 1 <= bits <= 31 && len >= 1 && (len + 31) / 32 <= dst.Length && (len + 31) / 32 <= src.Length
    requires Words(32, src[..(len + 31) / 32])
    modifies dst
    ensures var n := (len + 31) / 32;
      && Number(32, dst[..n]) == Number(32, old(src[..n])) / Pow2(bits) && Words(32, dst[..n])
      && dst[n..] == old(dst[n..])
  {
    hide Pow2, Number, Words, Or, Shl, Shr;
    var n := (len + 31) / 32;
    var x0 := src[0];
    ghost var low := x0 % Pow2(bits);
    RightBegin(32, bits, x0);
    NoWords(32, dst[..0]);
    assert old(src[..1]) == [x0] && dst[..0] == [];
    var i := 1;
    while i < n
      invariant 1 <= i <= n && x0 == old(src[i - 1])
      invariant Number(32, old(src[..i])) ==
        low + Pow2(bits) * (Number(32, dst[..i - 1]) + Pow2(32 * (i - 1)) * Shr(x0, bits))
      invariant forall k :: i <= k < src.Length ==> src[k] == old(src[k])
      invariant Words(32, dst[..i - 1])
      invariant dst[n..] == old(dst[n..])
    {
      var x1 := src[i];
      ghost var d, s := dst[..i - 1], old(src[..i]);
      WordAt(32, old(src[..n]), i - 1);
      RightTurn(32, bits, d, s, x0, x1, low);
      var out := Or(Shr(x0, bits), Shl(32, x1, 32 - bits));
      WordsSnoc(32, d, out);
      dst[i - 1] := out;
      assert dst[..i] == d + [out] && old(src[..i + 1]) == s + [x1];
      x0 := x1;
      i := i + 1;
    }
    RightEnd(32, bits, dst[..n - 1], old(src[..n]), Shr(x0, bits), low);
    WordAt(32, old(src[..n]), n - 1);
    ShrAtMost(x0, bits);
    WordsSnoc(32, dst[..n - 1], Shr(x0, bits));
    dst[i - 1] := Shr(x0, bits);
    assert dst[..n] == dst[..n - 1] + [Shr(x0, bits)];
  }

  // ---------------------------------------------------------------- concatenation

  lemma NumberEmpty(w: nat)
    ensures Number(w, []) == 0
  {
  }

  lemma {:induction false} NumberConcat(w: nat, a: seq<nat>, b: seq<nat>)
    ensures Number(w, a + b) == Number(w, a) + Pow2(w * |a|) * Number(w, b)
    decreases |b|
  {
    hide Pow2, Number;
    if b == [] {
      assert a + b == a;
      NumberEmpty(w);
    } else {
      var n := |b| - 1;
      var c, x := b[..n], b[n];
      NumberConcat(w, a, c);
      assert a + b == (a + c) + [x] && b == c + [x];
      NumberSnoc(w, a + c, x);
      NumberSnoc(w, c, x);
      var p := Pow2(w * |a|);
      Pow2Sum(w * |a|, w * n);
      Factor(w, |a|, n);
      Associate(p, Pow2(w * n), x);
      Factor(p, Number(w, c), Pow2(w * n) * x);
    }
  }

  /** Only the low bits matter below 2^k. */
  lemma ModSum(x: nat, y: nat, m: nat)
    requires m > 0
    ensures (x + m * y) % m == x % m
  {
    Parts(x, m);
    Distribute(1, x / m, y, m);
    Commute(m, y);
    DivMod(x / m + y, m, x % m);
  }

  /** Low parts put together. */
  lemma ModConcat(x: nat, k: nat, y: nat, n: nat)
    requires x < Pow2(k)
    ensures (x + Pow2(k) * y) % Pow2(k + n) == x + Pow2(k) * (y % Pow2(n))
  {
    hide Pow2;
    var p, q := Pow2(k), Pow2(n);
    Pow2Sum(k, n);
    Parts(y, q);
    var hi, lo := y / q, y % q;
    calc {
      x + p * y;
      { Factor(p, hi * q, lo); }
      x + p * lo + p * (hi * q);
      { Rearrange(p, 1, hi, q); Commute(p * q, hi); }
      hi * (p * q) + (x + p * lo);
    }
    LessThan(lo + 1, q, p);
    Distribute(1, lo, 1, p);
    Commute(p, lo);
    Commute(p, q);
    DivMod(hi, p * q, x + p * lo);
  }

  /** The octets behind the first q after the loop of `vec_cat`, as a number. */
  lemma CatEnd(d: seq<nat>, s: seq<nat>, a: nat, low: nat, r: nat, srcLen: nat)
    requires Number(8, d) + Pow2(8 * |d|) * a == Number(8, s) * Pow2(r) + low && low < Pow2(r)
    requires r + srcLen <= 8 * |d|
    ensures Number(8, d) % Pow2(r + srcLen) == low + Pow2(r) * (Number(8, s) % Pow2(srcLen))
  {
    hide Pow2, Number;
    var k := r + srcLen;
    Commute(Number(8, s), Pow2(r));
    ModConcat(low, r, Number(8, s), srcLen);
    Pow2Sum(k, 8 * |d| - k);
    Associate(Pow2(k), Pow2(8 * |d| - k), a);
    ModSum(Number(8, d), Pow2(8 * |d| - k) * a, Pow2(k));
  }

  /** And with the first q octets before them. */
  lemma CatWhole(pre: seq<nat>, d: seq<nat>, first: nat, s: seq<nat>, r: nat, srcLen: nat)
    requires Words(8, pre) && r < 8
    requires Number(8, d) % Pow2(r + srcLen) == first % Pow2(r) + Pow2(r) * (Number(8, s) % Pow2(srcLen))
    ensures var dstLen := 8 * |pre| + r;
      Number(8, pre + d) % Pow2(dstLen + srcLen)
      == Number(8, pre + [first]) % Pow2(dstLen) + Pow2(dstLen) * (Number(8, s) % Pow2(srcLen))
  {
    hide Pow2, Number;
    var q8 := 8 * |pre|;
    var p, f := Pow2(q8), Pow2(r);
    var v := Number(8, s) % Pow2(srcLen);
    NumberBelow(8, pre);
    NumberConcat(8, pre, d);
    NumberSnoc(8, pre, first);
    ModConcat(Number(8, pre), q8, Number(8, d), r + srcLen);
    ModConcat(Number(8, pre), q8, first, r);
    Pow2Sum(q8, r);
    Associate(p, f, v);
    Factor(p, first % f, f * v);
  }

  lemma CatBegin(first: nat, r: nat)
    ensures Number(8, []) + Pow2(8 * 0) * (first % Pow2(r)) == Number(8, []) * Pow2(r) + first % Pow2(r)
    ensures first % Pow2(r) < Pow2(r)
  {
    assert 8 * 0 == 0;
    Parts(first, Pow2(r));
  }

  /** The loop of `vec_cat`, from octet q on: a carries what the octet before leaves over. */
  method CatLoop(dst: array<nat>, q: nat, r: nat, src: array<nat>, m: nat) returns (a: nat)
    requires dst != src && r < 8 && q < dst.Length && q + m <= dst.Length && m <= src.Length
    requires Words(8, dst[..]) && Words(8, src[..])
    modifies dst
    ensures Words(8, dst[..]) && dst[..q] == old(dst[..q]) && dst[q + m..] == old(dst[q + m..])
    ensures Number(8, dst[q..q + m]) + Pow2(8 * m) * a == Number(8, src[..m]) * Pow2(r) + old(dst[q]) % Pow2(r)
  {
    hide Pow2, Number, Or, Shl, Shr;
    var n := 8 - r;
    ghost var first := dst[q];
    a := dst[q] % Pow2(r);
    CatBegin(first, r);
    assert dst[q..q] == [] && src[..0] == [];
    for i := 0 to m
      invariant a < Pow2(r)
      invariant Number(8, dst[q..q + i]) + Pow2(8 * i) * a == Number(8, src[..i]) * Pow2(r) + first % Pow2(r)
      invariant forall k :: 0 <= k < dst.Length ==> dst[k] < Pow2(8)
      invariant dst[..q] == old(dst[..q]) && dst[q + m..] == old(dst[q + m..])
    {
      ghost var d, s := dst[q..q + i], src[..i];
      var x := src[i];
      assert x == src[..][i];
      ShiftStep(8, x, r, a);
      var out := Or(a, Shl(8, x, r));
      LeftStep(8, r, d, s, a, x, out, Shr(x, n), first % Pow2(r));
      ShrBelow(x, 8, r);
      dst[q + i] := out;
      a := Shr(x, n);
      assert dst[q..q + (i + 1)] == d + [out] && src[..i + 1] == s + [x];
    }
  }

  // ---------------------------------------------------------------- comparison

  function Bit(x: nat, k: nat): (b: nat)
    ensures b < 2
  {
    x / Pow2(k) % 2
  }

  /** Bit number k of a vector of octets. */
  function BitOf(s: seq<nat>, k: nat): nat
    requires k / 8 < |s|
  {
    Bit(s[k / 8], k % 8)
  }

  predicate Agree(a: seq<nat>, b: seq<nat>, n: nat)
    requires n <= 8 * |a| && n <= 8 * |b|
  {
    forall k :: 0 <= k < n ==> BitOf(a, k) == BitOf(b, k)
  }

  /** `a ^ b`. */
  function Xor(a: nat, b: nat): nat {
    if a == 0 && b == 0 then 0 else (a + b) % 2 + 2 * Xor(a / 2, b / 2)
  }

  /** `ffs`: one more than the number of the lowest bit that is set. */
  function Ffs(x: nat): (k: nat)
    requires x > 0
    ensures k > 0
  {
    if x % 2 == 1 then 1 else 1 + Ffs(x / 2)
  }

  function FirstDifference(a: nat, b: nat): (k: nat)
    requires a != b
  {
    if a % 2 != b % 2 then 0 else 1 + FirstDifference(a / 2, b / 2)
  }

  lemma {:induction false} XorShowsDifference(a: nat, b: nat)
    ensures if a == b then Xor(a, b) == 0 else Xor(a, b) > 0 && Ffs(Xor(a, b)) == FirstDifference(a, b) + 1
  {
    hide Xor, Ffs, FirstDifference;
    XorStep(a, b);
    Halves(a, b);
    if a != b { FirstDifferenceStep(a, b); }
    if a != 0 || b != 0 {
      XorShowsDifference(a / 2, b / 2);
      FfsStep(Xor(a / 2, b / 2));
    } else {
      XorNothing();
    }
  }

  lemma XorNothing()
    ensures Xor(0, 0) == 0
  {
  }

  lemma Halves(a: nat, b: nat)
    ensures a % 2 == b % 2 ==> (a == b <==> a / 2 == b / 2) && (a + b) % 2 == 0
    ensures a % 2 != b % 2 ==> a != b && (a + b) % 2 == 1
  {
  }

  lemma FirstDifferenceStep(a: nat, b: nat)
    requires a != b
    ensures if a % 2 != b % 2 then FirstDifference(a, b) == 0
      else a / 2 != b / 2 && FirstDifference(a, b) == 1 + FirstDifference(a / 2, b / 2)
  {
  }

  lemma XorStep(a: nat, b: nat)
    ensures Xor(a, b) == (a + b) % 2 + 2 * Xor(a / 2, b / 2)
  {
  }

  lemma FfsStep(x: nat)
    ensures Ffs(1 + 2 * x) == 1
    ensures x > 0 ==> Ffs(2 * x) == 1 + Ffs(x)
  {
  }

  lemma {:induction false} FirstDifferenceIsFirst(a: nat, b: nat)
    requires a != b
    ensures var k := FirstDifference(a, b);
      Bit(a, k) != Bit(b, k) && forall j :: 0 <= j < k ==> Bit(a, j) == Bit(b, j)
  {
    hide Bit;
    LowBit(a);
    LowBit(b);
    if a % 2 == b % 2 {
      FirstDifferenceIsFirst(a / 2, b / 2);
      var k := FirstDifference(a / 2, b / 2);
      HigherBit(a, k);
      HigherBit(b, k);
      forall j | 0 <= j < k + 1
        ensures Bit(a, j) == Bit(b, j)
      {
        if j > 0 {
          HigherBit(a, j - 1);
          HigherBit(b, j - 1);
        }
      }
    }
  }

  lemma LowBit(a: nat)
    ensures Bit(a, 0) == a % 2
  {
  }

  lemma HigherBit(a: nat, k: nat)
    ensures Bit(a, k + 1) == Bit(a / 2, k)
  {
    var p := Pow2(k);
    DivTwice(a, p);
  }

  lemma DivTwice(a: nat, p: nat)
    requires p > 0
    ensures a / (2 * p) == a / 2 / p
  {
    var h := a / 2;
    Parts(h, p);
    var q, r := h / p, h % p;
    Commute(q, 2 * p);
    assert a == q * (2 * p) + (2 * r + a % 2) by { Associate(q, 2, p); Commute(q, 2); Associate(2, q, p); }
    DivMod(q, 2 * p, 2 * r + a % 2);
  }

  /** Multiples of 2 * q do not matter for the bit that q stands for. */
  lemma HighPartGone(h: nat, q: nat, lo: nat)
    requires q > 0
    ensures (h * (2 * q) + lo) / q % 2 == lo / q % 2
  {
    Parts(lo, q);
    Associate(h, 2, q);
    Commute(h, 2);
    Distribute(1, 2 * h, lo / q, q);
    DivMod(2 * h + lo / q, q, lo % q);
    EvenGone(h, lo / q);
  }

  lemma EvenGone(h: nat, z: nat)
    ensures (2 * h + z) % 2 == z % 2
  {
  }

  /** The bits below n of a word, and of what a mask of n bits leaves. */
  lemma MaskedBit(a: nat, n: nat, k: nat)
    ensures Bit(a % Pow2(n), k) == if k < n then Bit(a, k) else 0
  {
    hide Pow2;
    var p, q := Pow2(n), Pow2(k);
    Parts(a, p);
    var hi, lo := a / p, a % p;
    if k < n {
      var t := Pow2(n - k - 1);
      Pow2Sum(n - k - 1, k + 1);
      Pow2Next(k);
      Associate(hi, t, 2 * q);
      HighPartGone(hi * t, q, lo);
    } else {
      Pow2Sum(n, k - n);
      LessThan(1, Pow2(k - n), p);
      Commute(p, Pow2(k - n));
      DivMod(0, q, lo);
    }
  }

  lemma Pow2Next(k: nat)
    ensures Pow2(k + 1) == 2 * Pow2(k)
  {
  }

  /** Where two vectors first differ, in `vec_cmp`'s way of counting: the octet plus the bit in it plus one. */
  ghost predicate DiffersFirst(a: seq<nat>, b: seq<nat>, d: nat, n: nat)
    requires n <= 8 * |a| && n <= 8 * |b|
  {
    d < n && BitOf(a, d) != BitOf(b, d) && Agree(a, b, d)
  }

  lemma WholeOctets(a: seq<nat>, b: seq<nat>, i: nat)
    requires i <= |a| && i <= |b| && a[..i] == b[..i]
    ensures Agree(a, b, 8 * i)
  {
    forall k | 0 <= k < 8 * i
      ensures BitOf(a, k) == BitOf(b, k)
    {
      assert a[k / 8] == a[..i][k / 8] == b[k / 8];
    }
  }

  /** The first difference in octet i, of which the low n bits are looked at. */
  lemma InOctet(a: seq<nat>, b: seq<nat>, i: nat, n: nat)
    requires i < |a| && i < |b| && n <= 8 && a[..i] == b[..i] && a[i] % Pow2(n) != b[i] % Pow2(n)
    ensures var k := FirstDifference(a[i] % Pow2(n), b[i] % Pow2(n));
      k < n && DiffersFirst(a, b, 8 * i + k, 8 * i + n)
  {
    hide Pow2, Bit;
    var x, y := a[i] % Pow2(n), b[i] % Pow2(n);
    var k := FirstDifference(x, y);
    FirstDifferenceIsFirst(x, y);
    MaskedBit(a[i], n, k);
    MaskedBit(b[i], n, k);
    WholeOctets(a, b, i);
    forall j | 0 <= j < 8 * i + k
      ensures BitOf(a, j) == BitOf(b, j)
    {
      if j >= 8 * i {
        assert j / 8 == i && j % 8 == j - 8 * i;
        MaskedBit(a[i], n, j % 8);
        MaskedBit(b[i], n, j % 8);
      }
    }
    assert (8 * i + k) / 8 == i && (8 * i + k) % 8 == k;
  }

  lemma SameOctet(a: seq<nat>, b: seq<nat>, i: nat, n: nat)
    requires i < |a| && i < |b| && n <= 8 && a[..i] == b[..i] && a[i] % Pow2(n) == b[i] % Pow2(n)
    ensures Agree(a, b, 8 * i + n)
  {
    hide Pow2, Bit;
    WholeOctets(a, b, i);
    forall j | 0 <= j < 8 * i + n
      ensures BitOf(a, j) == BitOf(b, j)
    {
      if j >= 8 * i {
        MaskedBit(a[i], n, j - 8 * i);
        MaskedBit(b[i], n, j - 8 * i);
      }
    }
  }

  /** `vec_cmp`: zero exactly if the first len bits agree. Otherwise the number of the octet of the first
      difference, plus the number of the bit in it, plus one: the position of the bit, counted from one,
      exactly if the difference is in the first octet. */
  method VecCmp(a: array<nat>, b: array<nat>, len: nat) returns (ret: nat)
    requires (len + 7) / 8 <= a.Length && (len + 7) / 8 <= b.Length && Words(8, a[..]) && Words(8, b[..])
    ensures ret == 0 <==> Agree(a[..], b[..], len)
    ensures ret != 0 ==> exists d: nat ::
      DiffersFirst(a[..], b[..], d, len) && ret == d / 8 + d % 8 + 1 && (ret == d + 1 <==> d < 8)
  {
    hide Pow2, Xor, Ffs, Agree;
    var i: nat := 0;
    while i < len / 8
      invariant 0 <= i <= len / 8 && a[..i] == b[..i]
    {
      var x := Xor(a[i], b[i]);
      XorShowsDifference(a[i], b[i]);
      if x != 0 {
        OctetMask(a[..], i);
        OctetMask(b[..], i);
        FirstInOctet(a[..], b[..], i, 8, len);
        return i + Ffs(x);
      }
      i := i + 1;
    }
    WholeOctets(a[..], b[..], i);
    var rem := len % 8;
    if rem != 0 {
      var x := Xor(a[i] % Pow2(rem), b[i] % Pow2(rem));
      XorShowsDifference(a[i] % Pow2(rem), b[i] % Pow2(rem));
      if x != 0 {
        FirstInOctet(a[..], b[..], i, rem, len);
        return i + Ffs(x);
      }
      SameOctet(a[..], b[..], i, rem);
    }
    ret := 0;
  }

  /** Vectors that first differ at bit 8 and at bit 1, and for which the result is the same. */
  lemma SamePosition()
    ensures DiffersFirst([0, 0], [0, 1], 8, 16) && DiffersFirst([0, 0], [2, 0], 1, 16)
    ensures 8 / 8 + 8 % 8 + 1 == 1 / 8 + 1 % 8 + 1 == 2
  {
    assert Pow2(0) == 1 && Pow2(1) == 2;
    forall k | 0 <= k < 8
      ensures BitOf([0, 0], k) == BitOf([0, 1], k)
    {
      assert k / 8 == 0;
    }
    assert Bit(0, 0) == 0 && Bit(1, 0) == 1 && Bit(0, 1) == 0 && Bit(2, 1) == 1 && Bit(2, 0) == 0;
    assert BitOf([0, 0], 8) != BitOf([0, 1], 8);
    assert BitOf([0, 0], 1) != BitOf([2, 0], 1);
    assert BitOf([0, 0], 0) == BitOf([2, 0], 0);
  }

  lemma OctetMask(a: seq<nat>, i: nat)
    requires Words(8, a) && i < |a|
    ensures a[i] % Pow2(8) == a[i]
  {
  }

  lemma FirstInOctet(a: seq<nat>, b: seq<nat>, i: nat, n: nat, len: nat)
    requires i < |a| && i < |b| && n <= 8 && a[..i] == b[..i] && a[i] % Pow2(n) != b[i] % Pow2(n)
    requires 8 * i + n <= len <= 8 * |a| && len <= 8 * |b|
    ensures var k := FirstDifference(a[i] % Pow2(n), b[i] % Pow2(n));
      !Agree(a, b, len) && exists d: nat ::
        DiffersFirst(a, b, d, len) && i + (k + 1) == d / 8 + d % 8 + 1 && (i + (k + 1) == d + 1 <==> d < 8)
  {
    hide Pow2, BitOf;
    InOctet(a, b, i, n);
    var k := FirstDifference(a[i] % Pow2(n), b[i] % Pow2(n));
    var d := 8 * i + k;
    assert DiffersFirst(a, b, d, len);
    assert d / 8 == i && d % 8 == k;
  }

  // ---------------------------------------------------------------- numbers are bit sequences

  lemma DivByProduct(v: nat, p: nat, q: nat)
    requires p > 0 && q > 0
    ensures p * q > 0 && v / (p * q) == v / p / q
  {
    var y, lo := v / p, v % p;
    Parts(v, p);
    Parts(y, q);
    var z, r := y / q, y % q;
    LessThan(1, p, q);
    LessThan(r + 1, q, p);
    Distribute(1, r, 1, p);
    Distribute(z, q, r, p);
    Commute(q, p);
    DivMod(z, p * q, r * p + lo);
  }

  /** Bits above m of a number that is put together at m. */
  lemma BitAbove(lo: nat, m: nat, x: nat, j: nat)
    requires lo < Pow2(m)
    ensures Bit(lo + Pow2(m) * x, m + j) == Bit(x, j)
  {
    hide Pow2;
    var p, q := Pow2(m), Pow2(j);
    Pow2Sum(m, j);
    DivByProduct(lo + p * x, p, q);
    Commute(p, x);
    DivMod(x, p, lo);
  }

  lemma BitBelow(lo: nat, m: nat, x: nat, k: nat)
    requires lo < Pow2(m) && k < m
    ensures Bit(lo + Pow2(m) * x, k) == Bit(lo, k)
  {
    hide Pow2, Bit;
    MaskedBit(lo + Pow2(m) * x, m, k);
    Commute(Pow2(m), x);
    DivMod(x, Pow2(m), lo);
  }

  /** The bits of the number are those of the octets. */
  lemma {:induction false} BitOfNumber(s: seq<nat>, k: nat)
    requires Words(8, s) && k < 8 * |s|
    ensures Bit(Number(8, s), k) == BitOf(s, k)
    decreases |s|
  {
    hide Pow2, Bit, Number;
    var n := |s| - 1;
    var pre, x := s[..n], s[n];
    assert s == pre + [x];
    NumberSnoc(8, pre, x);
    NumberBelow(8, pre);
    if k < 8 * n {
      BitBelow(Number(8, pre), 8 * n, x, k);
      BitOfNumber(pre, k);
    } else {
      BitAbove(Number(8, pre), 8 * n, x, k - 8 * n);
    }
  }

  /** What VecCat yields, bit by bit: first the low bits of what dst held, then those of src. */
  lemma CatBits(v: nat, dstLen: nat, x: nat, srcLen: nat, y: nat, k: nat)
    requires v % Pow2(dstLen + srcLen) == x % Pow2(dstLen) + Pow2(dstLen) * (y % Pow2(srcLen)) && k < dstLen + srcLen
    ensures Bit(v, k) == if k < dstLen then Bit(x, k) else Bit(y, k - dstLen)
  {
    hide Pow2, Bit;
    MaskedBit(v, dstLen + srcLen, k);
    Parts(x, Pow2(dstLen));
    if k < dstLen {
      BitBelow(x % Pow2(dstLen), dstLen, y % Pow2(srcLen), k);
      MaskedBit(x, dstLen, k);
    } else {
      BitAbove(x % Pow2(dstLen), dstLen, y % Pow2(srcLen), k - dstLen);
      MaskedBit(y, srcLen, k - dstLen);
    }
  }

  /** The octets of a concatenation. */
  lemma CatBitOf(d: seq<nat>, x: seq<nat>, dstLen: nat, s: seq<nat>, srcLen: nat, n: nat, m: nat, k: nat)
    requires Words(8, d) && Words(8, x) && Words(8, s) && dstLen / 8 < |x| && n <= |d| && m <= |s|
    requires dstLen + srcLen <= 8 * n && srcLen <= 8 * m
    requires Number(8, d[..n]) % Pow2(dstLen + srcLen)
      == Number(8, x[..dstLen / 8 + 1]) % Pow2(dstLen) + Pow2(dstLen) * (Number(8, s[..m]) % Pow2(srcLen))
    requires k < dstLen + srcLen
    ensures BitOf(d, k) == if k < dstLen then BitOf(x, k) else BitOf(s, k - dstLen)
  {
    hide Pow2, Number, Bit;
    CatBits(Number(8, d[..n]), dstLen, Number(8, x[..dstLen / 8 + 1]), srcLen, Number(8, s[..m]), k);
    BitOfNumber(d[..n], k);
    if k < dstLen {
      BitOfNumber(x[..dstLen / 8 + 1], k);
    } else {
      BitOfNumber(s[..m], k - dstLen);
    }
  }

  lemma CatBitsOf(d: seq<nat>, x: seq<nat>, dstLen: nat, s: seq<nat>, srcLen: nat, n: nat, m: nat)
    requires Words(8, d) && Words(8, x) && Words(8, s) && dstLen / 8 < |x| && n <= |d| && m <= |s|
    requires dstLen + srcLen <= 8 * n && srcLen <= 8 * m
    requires Number(8, d[..n]) % Pow2(dstLen + srcLen)
      == Number(8, x[..dstLen / 8 + 1]) % Pow2(dstLen) + Pow2(dstLen) * (Number(8, s[..m]) % Pow2(srcLen))
    ensures forall k :: 0 <= k < dstLen ==> BitOf(d, k) == BitOf(x, k)
    ensures forall k :: 0 <= k < srcLen ==> BitOf(d, dstLen + k) == BitOf(s, k)
  {
    hide Pow2, Number, BitOf;
    forall k | 0 <= k < dstLen
      ensures BitOf(d, k) == BitOf(x, k)
    {
      CatBitOf(d, x, dstLen, s, srcLen, n, m, k);
    }
    forall k | 0 <= k < srcLen
      ensures BitOf(d, dstLen + k) == BitOf(s, k)
    {
      CatBitOf(d, x, dstLen, s, srcLen, n, m, dstLen + k);
    }
  }

  /** `vec_cat`: the low dstLen bits stay, the low srcLen bits of src come next, and no octet changes behind
      those written. The m octets of src that are read may be one more than srcLen bits need. */
  method VecCat(dst: array<nat>, dstLen: nat, src: array<nat>, srcLen: nat) returns (total: nat)
    requires dst != src && dstLen / 8 < dst.Length
    requires var m := (srcLen + dstLen % 8 + 7) / 8; dstLen / 8 + m <= dst.Length && m <= src.Length
    requires Words(8, dst[..]) && Words(8, src[..])
    modifies dst
    ensures total == dstLen + srcLen && Words(8, dst[..])
    ensures forall k :: 0 <= k < dstLen ==> BitOf(dst[..], k) == BitOf(old(dst[..]), k)
    ensures forall k :: 0 <= k < srcLen ==> BitOf(dst[..], dstLen + k) == BitOf(src[..], k)
    ensures var m := (srcLen + dstLen % 8 + 7) / 8;
      && Number(8, dst[..dstLen / 8 + m]) % Pow2(dstLen + srcLen)
         == Number(8, old(dst[..dstLen / 8 + 1])) % Pow2(dstLen) + Pow2(dstLen) * (Number(8, src[..m]) % Pow2(srcLen))
      && dst[dstLen / 8 + m..] == old(dst[dstLen / 8 + m..])
  {
    hide Pow2, Number, BitOf;
    var q := dstLen / 8;
    var r := dstLen % 8;
    var m := (srcLen + r + 7) / 8;
    ghost var was := dst[..];
    ghost var pre, first := was[..q], was[q];
    assert was[..q + 1] == pre + [first] && dst[..q] == pre;
    var a := CatLoop(dst, q, r, src, m);
    CatBegin(first, r);
    CatEnd(dst[q..q + m], src[..m], a, first % Pow2(r), r, srcLen);
    CatWhole(pre, dst[q..q + m], first, src[..m], r, srcLen);
    ghost var now := dst[..];
    assert now[..q + m] == pre + dst[q..q + m];
    assert src[..][..m] == src[..m];
    CatBitsOf(now, was, dstLen, src[..], srcLen, q + m, m);
    total := dstLen + srcLen;
  }
}
