/** Bytes, the bitwise operators the source applies to them, and the fixed-width integer encodings
    shared by the wire formats. */
module Bytes {
  type byte = x: int | 0 <= x < 256

  function Pow2(n: nat): (p: nat)
    ensures p >= 1
  {
    if n == 0 then 1 else 2 * Pow2(n - 1)
  }

  /** The `n` low bits of `a ^ b`, bit by bit. */
  function XorBits(a: nat, b: nat, n: nat): (r: nat)
    ensures r < Pow2(n)
  {
    if n == 0 then 0 else (if a % 2 == b % 2 then 0 else 1) + 2 * XorBits(a / 2, b / 2, n - 1)
  }

  /** The `n` low bits of `a | b`. */
  function OrBits(a: nat, b: nat, n: nat): (r: nat)
    ensures r < Pow2(n)
  {
    if n == 0 then 0
    else (if a % 2 == 1 || b % 2 == 1 then 1 else 0) + 2 * OrBits(a / 2, b / 2, n - 1)
  }

  function Xor(a: byte, b: byte): byte {
    assert Pow2(8) == 256;
    XorBits(a, b, 8)
  }

  function Or(a: byte, b: byte): byte {
    assert Pow2(8) == 256;
    OrBits(a, b, 8)
  }

  lemma BitAndRest(bit: nat, rest: nat)
    requires bit < 2
    ensures (bit + 2 * rest) % 2 == bit && (bit + 2 * rest) / 2 == rest
  {
  }

  lemma XorBitsStep(a: nat, b: nat, p: nat, q: nat, n: nat)
    requires a < 2 && b < 2
    ensures XorBits(a + 2 * p, b + 2 * q, n + 1) == (if a == b then 0 else 1) + 2 * XorBits(p, q, n)
  {
    BitAndRest(a, p);
    BitAndRest(b, q);
  }

  lemma XorBitsStepTwice(a: nat, b: nat, p: nat, q: nat, n: nat)
    requires a < 2 && b < 2
    ensures XorBits(XorBits(a + 2 * p, b + 2 * q, n + 1), b + 2 * q, n + 1)
         == a + 2 * XorBits(XorBits(p, q, n), q, n)
  {
    XorBitsStep(a, b, p, q, n);
    XorBitsStep(if a == b then 0 else 1, b, XorBits(p, q, n), q, n);
  }

  lemma Halves(a: nat) returns (bit: nat, rest: nat)
    ensures bit < 2 && a == bit + 2 * rest
  {
    bit, rest := a % 2, a / 2;
  }

  lemma {:induction false} XorBitsCancels(a: nat, b: nat, n: nat)
    requires a < Pow2(n)
    ensures XorBits(XorBits(a, b, n), b, n) == a
  {
    if n > 0 {
      var abit, p := Halves(a);
      var bbit, q := Halves(b);
      XorBitsStepTwice(abit, bbit, p, q, n - 1);
      XorBitsCancels(p, q, n - 1);
    }
  }

  /** `a ^ b ^ b == a`: what makes the stream cipher its own inverse. */
  lemma XorCancels(a: byte, b: byte)
    ensures Xor(Xor(a, b), b) == a
  {
    assert Pow2(8) == 256;
    XorBitsCancels(a, b, 8);
  }

  function BitAt(v: nat, k: nat): nat { v / Pow2(k) % 2 }

  lemma ShiftedBit(bit: nat, rest: nat, k: nat)
    requires bit < 2
    ensures BitAt(bit + 2 * rest, 0) == bit
    ensures k > 0 ==> BitAt(bit + 2 * rest, k) == BitAt(rest, k - 1)
  {
    BitAndRest(bit, rest);
    if k > 0 {
      var p := Pow2(k - 1);
      var q, r := rest / p, rest % p;
      DoubledRemainder(p, q, r, bit, rest);
      RemainderIs(bit + 2 * rest, 2 * p, q, 2 * r + bit);
    }
  }

  lemma DoubledRemainder(p: int, q: int, r: int, bit: int, rest: int)
    requires rest == p * q + r
    ensures bit + 2 * rest == (2 * p) * q + (2 * r + bit)
  {
    assert (2 * p) * q == 2 * (p * q);
  }

  lemma {:induction false} XorBitsBit(a: nat, b: nat, n: nat, k: nat)
    requires k < n
    ensures BitAt(XorBits(a, b, n), k) == if BitAt(a, k) == BitAt(b, k) then 0 else 1
  {
    hide XorBits, BitAt;
    var abit, p := Halves(a);
    var bbit, q := Halves(b);
    var differs := if abit == bbit then 0 else 1;
    XorBitsStep(abit, bbit, p, q, n - 1);
    ShiftedBit(abit, p, k);
    ShiftedBit(bbit, q, k);
    ShiftedBit(differs, XorBits(p, q, n - 1), k);
    if k > 0 {
      XorBitsBit(p, q, n - 1, k - 1);
    }
  }

  /** Bit `k` of `a ^ b` is set exactly if the two bits differ. */
  lemma XorBit(a: byte, b: byte, k: nat)
    requires k < 8
    ensures Xor(a, b) / Pow2(k) % 2 == if a / Pow2(k) % 2 == b / Pow2(k) % 2 then 0 else 1
  {
    hide XorBits;
    XorBitsBit(a, b, 8, k);
  }

  lemma {:induction false} XorBitsZero(a: nat, b: nat, n: nat)
    requires a < Pow2(n) && b < Pow2(n)
    ensures XorBits(a, b, n) == 0 <==> a == b
  {
    if n > 0 {
      XorBitsZero(a / 2, b / 2, n - 1);
    }
  }

  lemma {:induction false} OrBitsZero(a: nat, b: nat, n: nat)
    requires a < Pow2(n) && b < Pow2(n)
    ensures OrBits(a, b, n) == 0 <==> a == 0 && b == 0
  {
    if n > 0 {
      OrBitsZero(a / 2, b / 2, n - 1);
    }
  }

  /** A difference accumulator stays zero exactly while every compared pair of bytes is equal. */
  lemma DifferenceIsZero(diff: byte, a: byte, b: byte)
    ensures Or(diff, Xor(a, b)) == 0 <==> diff == 0 && a == b
  {
    assert Pow2(8) == 256;
    XorBitsZero(a, b, 8);
    OrBitsZero(diff, Xor(a, b), 8);
  }

  /** Little-endian 16-bit encoding of the low half of `v`, as a C `short` store writes it. */
  function Le16(v: int): (s: seq<byte>)
    ensures |s| == 2
  {
    [v % 256, v / 256 % 256]
  }

  function ByteAt(s: seq<byte>, i: nat): byte {
    if i < |s| then s[i] else 0
  }

  /** Little-endian 16-bit value at offset `i`; bytes past the end read as zero. */
  function WordAt(s: seq<byte>, i: nat): (w: nat)
    ensures w < 0x1_0000
  {
    ByteAt(s, i) + 256 * ByteAt(s, i + 1)
  }

  /** A 16-bit pattern read as a C `short`. */
  function AsShort(w: int): (r: int)
    ensures -0x8000 <= r < 0x8000
    ensures -0x8000 <= w < 0x8000 ==> r == w
    ensures w >= 0 ==> r <= w
    ensures (w - r) % 0x1_0000 == 0
  {
    var low := w % 0x1_0000;
    if low < 0x8000 then low else low - 0x1_0000
  }

  lemma WordRoundTrip(v: int, s: seq<byte>, i: nat)
    requires i + 2 <= |s| && s[i..i + 2] == Le16(v)
    ensures WordAt(s, i) == v % 0x1_0000
  {
    assert s[i] == s[i..i + 2][0] && s[i + 1] == s[i..i + 2][1];
    Le16Value(v);
  }

  lemma Le16Value(v: int)
    ensures v % 256 + 256 * (v / 256 % 256) == v % 0x1_0000
  {
    var q, low := v / 256, v % 256;
    var hi, mid := q / 256, q % 256;
    assert v == low + 256 * mid + 0x1_0000 * hi;
    assert 0 <= low + 256 * mid < 0x1_0000;
    RemainderIs(v, 0x1_0000, hi, low + 256 * mid);
  }

  /** `r` is the remainder of `v` once `v == m * k + r` with `0 <= r < m`. */
  lemma RemainderIs(v: int, m: int, k: int, r: int)
    requires 0 <= r < m && v == m * k + r
    ensures v % m == r && v / m == k
  {
    assert v == m * (v / m) + v % m;
    var d := k - v / m;
    assert m * d == m * k - m * (v / m);
    assert m * d == v % m - r;
    assert -m < m * d < m;
    if d >= 1 {
      MulAtLeast(m, d);
    } else if d <= -1 {
      MulAtLeast(m, -d);
    }
  }

  lemma MulAtLeast(m: nat, d: int)
    requires d >= 1
    ensures m * d >= m && m * -d == -(m * d)
  {
    assert m * d == m * (d - 1) + m;
  }

  function Zeros(n: nat): (s: seq<byte>)
    ensures |s| == n
  {
    seq(n, _ => 0)
  }

  /** `before` with `bytes` written over it at `off`. */
  function Spliced(before: seq<byte>, off: nat, bytes: seq<byte>): (s: seq<byte>)
    requires off + |bytes| <= |before|
    ensures |s| == |before|
  {
    before[..off] + bytes + before[off + |bytes|..]
  }

  lemma SpliceAppends(before: seq<byte>, off: nat, a: seq<byte>, b: seq<byte>)
    requires off + |a| + |b| <= |before|
    ensures Spliced(Spliced(before, off, a), off + |a|, b) == Spliced(before, off, a + b)
  {
  }

  lemma SpliceNothing(before: seq<byte>, off: nat)
    requires off <= |before|
    ensures Spliced(before, off, []) == before
  {
  }

  lemma SplicedSpan(before: seq<byte>, off: nat, bytes: seq<byte>)
    requires off + |bytes| <= |before|
    ensures Spliced(before, off, bytes)[off..off + |bytes|] == bytes
  {
  }

  /** `memcpy` into the middle of a buffer. */
  method CopyInto(dest: array<byte>, off: nat, bytes: seq<byte>)
    requires off + |bytes| <= dest.Length
    modifies dest
    ensures dest[..] == Spliced(old(dest[..]), off, bytes)
  {
    forall k | off <= k < off + |bytes| { dest[k] := bytes[k - off]; }
  }

  lemma SliceOfSlice<T>(s: seq<T>, a: nat, b: nat, c: nat, d: nat)
    requires a <= b <= |s| && c <= d <= b - a
    ensures s[a..b][c..d] == s[a + c..a + d]
  {
    var t := s[a..b];
    assert forall i :: 0 <= i < d - c ==> t[c..d][i] == t[c + i] == s[a + c + i];
  }
}
