/** The bytes of a dump file: writes at offsets, words of either byte order, and bits. */
module DumpBytes {
  import opened Basics

  /** Every write is carried out. */
  ghost predicate Always(accepts: nat -> bool) {
    forall n :: accepts(n)
  }

  /** The file behind a series of writes at offsets; a hole reads as zero. */
  type File = nat -> byte

  function ReadBytes(f: File, offset: nat, n: nat): (s: seq<byte>)
    ensures |s| == n
  {
    seq<byte>(n, i requires 0 <= i < n => f(offset + i))
  }

  function Put(f: File, offset: nat, buf: seq<byte>): File {
    (p: nat) => if offset <= p < offset + |buf| then buf[p - offset] else f(p)
  }

  ghost predicate Holds(f: File, offset: nat, s: seq<byte>) {
    forall p :: offset <= p < offset + |s| ==> f(p) == s[p - offset]
  }

  /** Only bytes of [lo, hi) differ. */
  ghost predicate Within(f: File, f': File, lo: nat, hi: nat) {
    forall p: nat :: !(lo <= p < hi) ==> f'(p) == f(p)
  }

  lemma PutHolds(f: File, offset: nat, buf: seq<byte>)
    ensures Holds(Put(f, offset, buf), offset, buf)
    ensures Within(f, Put(f, offset, buf), offset, offset + |buf|)
  {
  }

  lemma HoldsElsewhere(f: File, f': File, lo: nat, hi: nat, offset: nat, s: seq<byte>)
    requires Holds(f, offset, s) && Within(f, f', lo, hi) && (offset + |s| <= lo || hi <= offset)
    ensures Holds(f', offset, s)
  {
  }

  lemma HoldsRead(f: File, offset: nat, s: seq<byte>, a: nat, n: nat)
    requires Holds(f, offset, s) && a + n <= |s|
    ensures ReadBytes(f, offset + a, n) == s[a..a + n]
  {
  }

  function Zeros(n: nat): (s: seq<byte>)
    ensures |s| == n
  {
    seq<byte>(n, _ => 0)
  }

  lemma SliceJoin(s: seq<byte>, i: nat, j: nat, k: nat)
    requires i <= j <= k <= |s|
    ensures s[i..j] + s[j..k] == s[i..k]
  {
  }

  lemma SliceExtend(s: seq<byte>, t: seq<byte>, i: nat, j: nat)
    requires i <= j <= |s|
    ensures (s + t)[i..j] == s[i..j]
  {
  }

  // Words

  /** cpu_to_dump32 and cpu_to_dump64: the `n` bytes of `v` in the order of the dump. */
  function Encode(big: bool, n: nat, v: nat): (s: seq<byte>)
    ensures |s| == n
    decreases v, n
  {
    if n == 0 then []
    else if big then Encode(big, n - 1, v / 256) + [v % 256]
    else [v % 256] + Encode(big, n - 1, v / 256)
  }

  function Decode(big: bool, s: seq<byte>): nat {
    if s == [] then 0
    else if big then Decode(big, s[..|s| - 1]) * 256 + s[|s| - 1]
    else s[0] + 256 * Decode(big, s[1..])
  }

  function Pow256(n: nat): (m: nat)
    ensures m > 0
  {
    if n == 0 then 1 else 256 * Pow256(n - 1)
  }

  /** Little-endian: byte `i` has weight 256 to the power `i`; big-endian is the reverse. */
  lemma {:induction false} EncodeByte(n: nat, v: nat, i: nat)
    requires i < n
    ensures Encode(false, n, v)[i] == v / Pow256(i) % 256
    ensures Encode(true, n, v)[n - 1 - i] == Encode(false, n, v)[i]
  {
    if i > 0 {
      EncodeByte(n - 1, v / 256, i - 1);
      DivTwice(v, Pow256(i - 1));
    }
  }

  lemma DivTwice(v: nat, m: nat)
    requires m > 0
    ensures v / 256 / m == v / (256 * m)
  {
    var q, r := v / 256 / m, v / 256 % m;
    assert v / 256 == q * m + r;
    assert q * (256 * m) == 256 * (q * m);
    Quotient(v, 256 * m, q, 256 * r + v % 256);
  }

  lemma Quotient(v: nat, d: nat, q: nat, r: nat)
    requires r < d && v == q * d + r
    ensures v / d == q
  {
    var e: int := q - v / d;
    assert e * d == v % d - r;
    assert e >= 1 ==> e * d >= d;
    assert -e >= 1 ==> -e * d >= d;
  }

  /** A word of `n` bytes reads back, in either byte order. */
  lemma {:induction false} DecodeEncode(big: bool, n: nat, v: nat)
    requires v < Pow256(n)
    ensures Decode(big, Encode(big, n, v)) == v
  {
    if n > 0 {
      DecodeEncode(big, n - 1, v / 256);
      var s := Encode(big, n, v);
      assert big ==> s[..n - 1] == Encode(big, n - 1, v / 256);
      assert !big ==> s[1..] == Encode(big, n - 1, v / 256);
    }
  }

  lemma {:induction false} DecodeBound(big: bool, s: seq<byte>)
    ensures Decode(big, s) < Pow256(|s|)
  {
    if s != [] {
      DecodeBound(big, if big then s[..|s| - 1] else s[1..]);
    }
  }

  /** A value survives exactly if it fits the word. */
  lemma WordKept(big: bool, n: nat, v: nat)
    ensures Decode(big, Encode(big, n, v)) == v <==> v < Pow256(n)
  {
  }

  /** A word keeps the value modulo its range. */
  lemma {:induction false} WordCut(big: bool, n: nat, v: nat)
    ensures Decode(big, Encode(big, n, v)) == v % Pow256(n)
  {
    if n > 0 {
      WordCut(big, n - 1, v / 256);
      var s := Encode(big, n, v);
      assert big ==> s[..n - 1] == Encode(big, n - 1, v / 256);
      assert !big ==> s[1..] == Encode(big, n - 1, v / 256);
      LowByte(v, Pow256(n - 1));
    }
  }

  lemma LowByte(v: nat, m: nat)
    requires m > 0
    ensures v % (256 * m) == 256 * (v / 256 % m) + v % 256
  {
    var q, r := v / 256 / m, v / 256 % m;
    assert v / 256 == q * m + r;
    assert q * (256 * m) == 256 * (q * m);
    Remainder(v, 256 * m, q, 256 * r + v % 256);
  }

  lemma Remainder(v: nat, d: nat, q: nat, r: nat)
    requires r < d && v == q * d + r
    ensures v % d == r
  {
    var e: int := q - v / d;
    assert e * d == v % d - r;
    assert e >= 1 ==> e * d >= d;
    assert -e >= 1 ==> -e * d >= d;
  }

  lemma WordSizes()
    ensures Pow256(4) == 0x1_0000_0000
    ensures Pow256(8) == 0x1_0000_0000_0000_0000
  {
  }

  // Bits

  predicate TestBit(b: nat, j: nat) {
    if j == 0 then b % 2 == 1 else TestBit(b / 2, j - 1)
  }

  /** buf[byte] |= 1u << bit, or with `value` false, buf[byte] &= ~(1u << bit) */
  function WithBit(b: nat, j: nat, value: bool): nat {
    if j == 0 then b - b % 2 + (if value then 1 else 0)
    else 2 * WithBit(b / 2, j - 1, value) + b % 2
  }

  function Pow2(m: nat): (p: nat)
    ensures p > 0
  {
    if m == 0 then 1 else 2 * Pow2(m - 1)
  }

  lemma {:induction false} WithBitBits(b: nat, i: nat, value: bool, j: nat)
    ensures TestBit(WithBit(b, i, value), j) == if i == j then value else TestBit(b, j)
  {
    if i > 0 && j > 0 {
      WithBitBits(b / 2, i - 1, value, j - 1);
      assert WithBit(b, i, value) / 2 == WithBit(b / 2, i - 1, value);
    } else if i == 0 && j > 0 {
      assert WithBit(b, i, value) / 2 == b / 2;
    }
  }

  lemma {:induction false} WithBitFits(b: nat, j: nat, value: bool, m: nat)
    requires j < m && b < Pow2(m)
    ensures WithBit(b, j, value) < Pow2(m)
  {
    var half, h := Pow2(m - 1), b / 2;
    assert b == 2 * h + b % 2 && h < half;
    if j == 0 {
      assert WithBit(b, j, value) <= 2 * h + 1;
    } else {
      WithBitFits(h, j - 1, value, m - 1);
      assert WithBit(b, j, value) <= 2 * WithBit(h, j - 1, value) + 1;
    }
    assert Pow2(m) == 2 * half;
  }

  function WithBitByte(b: byte, j: nat, value: bool): byte
    requires j < 8
  {
    assert Pow2(8) == 256 by { assert Pow2(4) == 16; }
    WithBitFits(b, j, value, 8);
    WithBit(b, j, value)
  }

  /** Bit `j` of a number, counted from the lowest. */
  lemma {:induction false} TestBitIs(b: nat, j: nat)
    ensures TestBit(b, j) <==> b / Pow2(j) % 2 == 1
  {
    if j > 0 {
      TestBitIs(b / 2, j - 1);
      HalfTwice(b, Pow2(j - 1));
    }
  }

  lemma HalfTwice(v: nat, m: nat)
    requires m > 0
    ensures v / 2 / m == v / (2 * m)
  {
    var q, r := v / 2 / m, v / 2 % m;
    assert v / 2 == q * m + r;
    assert q * (2 * m) == 2 * (q * m);
    Quotient(v, 2 * m, q, 2 * r + v % 2);
  }

  lemma {:induction false} ZeroBits(j: nat)
    ensures !TestBit(0, j)
  {
    if j > 0 {
      ZeroBits(j - 1);
    }
  }
}
