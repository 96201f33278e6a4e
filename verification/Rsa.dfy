/** Textbook RSA on 64-byte big-endian blocks: the C# encryptor and decryptor, the C++ decryptor with its
    left padding, and the round trip between them. */
module Rsa {
  import opened Bytes
  import opened NumberTheory

  const BLOCK_SIZE: nat := 64

  const P: nat := 90336306034988608177990369937674942312598126945629080039358980696516831956279
  const Q: nat := 114965715011442463284112195027084055446504070890856867618584335022146211064213
  const N: nat := 10385578014804950221065190195736491193847541479389728420426514083771326945639729736695791225573893793119489336012297845146104637691941242485732839277543427
  const D: nat := 10088847214381951643320470475858305731166183151407164751271470824235003318621252307969752086088076499395823874814123350292603347408732347765156628342107995
  const E: nat := 35

  // ----- Big-endian integers -----

  function FromBytes(s: seq<byte>): nat {
    if s == [] then 0 else 256 * FromBytes(s[..|s| - 1]) + s[|s| - 1]
  }

  function ToBytes(v: nat, n: nat): (s: seq<byte>)
    ensures |s| == n
  {
    if n == 0 then [] else ToBytes(v / 256, n - 1) + [v % 256]
  }

  lemma {:induction false} FromBytesBound(s: seq<byte>)
    ensures FromBytes(s) < Pow(256, |s|)
  {
    if s != [] {
      FromBytesBound(s[..|s| - 1]);
    }
  }

  lemma {:induction false} ToFrom(s: seq<byte>)
    ensures ToBytes(FromBytes(s), |s|) == s
  {
    if s != [] {
      var init, last := s[..|s| - 1], s[|s| - 1];
      ToFrom(init);
      RemainderIs(FromBytes(s), 256, FromBytes(init), last);
      assert s == init + [last];
    }
  }

  lemma {:induction false} FromTo(v: nat, n: nat)
    requires v < Pow(256, n)
    ensures FromBytes(ToBytes(v, n)) == v
  {
    if n > 0 {
      FromTo(v / 256, n - 1);
      assert ToBytes(v, n)[..n - 1] == ToBytes(v / 256, n - 1);
    }
  }

  lemma PowPositive(n: nat)
    ensures Pow(256, n) > 0
  {
    if n > 0 {
      PowPositive(n - 1);
    }
  }

  /** The first byte is the most significant. */
  lemma {:induction false} BigEndian(a: seq<byte>, b: seq<byte>)
    ensures FromBytes(a + b) == FromBytes(a) * Pow(256, |b|) + FromBytes(b)
  {
    if b == [] {
      assert a + b == a;
    } else {
      var init, last := b[..|b| - 1], b[|b| - 1];
      BigEndian(a, init);
      assert (a + b)[..|a + b| - 1] == a + init && (a + b)[|a + b| - 1] == last;
      ScaledSum(FromBytes(a), Pow(256, |init|), FromBytes(init));
    }
  }

  lemma ScaledSum(x: int, p: int, y: int)
    ensures 256 * (x * p + y) == x * (256 * p) + 256 * y
  {
  }

  lemma {:induction false} LeadingZeros(n: nat, s: seq<byte>)
    ensures FromBytes(Zeros(n) + s) == FromBytes(s)
  {
    if s != [] {
      LeadingZeros(n, s[..|s| - 1]);
      assert (Zeros(n) + s)[..n + |s| - 1] == Zeros(n) + s[..|s| - 1];
    } else if n > 0 {
      LeadingZeros(n - 1, []);
      assert (Zeros(n) + s)[..n - 1] == Zeros(n - 1) + [];
    }
  }

  // ----- Minimal encodings, as the two big-number libraries produce them -----

  /** Little-endian digits without a leading zero. */
  function Digits(v: nat): (s: seq<byte>)
    ensures v == 0 <==> s == []
    ensures s != [] ==> s[|s| - 1] != 0
  {
    if v == 0 then [] else [v % 256] + Digits(v / 256)
  }

  function Reversed(s: seq<byte>): (r: seq<byte>)
    ensures |r| == |s|
    ensures forall i :: 0 <= i < |s| ==> r[i] == s[|s| - 1 - i]
  {
    seq(|s|, i requires 0 <= i < |s| => s[|s| - 1 - i])
  }

  lemma {:induction false} DigitsBound(v: nat, n: nat)
    ensures |Digits(v)| <= n <==> v < Pow(256, n)
  {
    if v == 0 {
      PowPositive(n);
    } else if n > 0 {
      DigitsBound(v / 256, n - 1);
    }
  }

  /** Left-padding the minimal digits gives the fixed-width encoding. */
  lemma {:induction false} PaddedDigits(v: nat, n: nat)
    requires v < Pow(256, n)
    ensures |Digits(v)| <= n
    ensures ToBytes(v, n) == Zeros(n - |Digits(v)|) + Reversed(Digits(v))
  {
    DigitsBound(v, n);
    if n > 0 {
      if v == 0 {
        PowPositive(n - 1);
        PaddedDigits(0, n - 1);
      } else {
        DigitsBound(v, n);
        DigitsBound(v / 256, n - 1);
        PaddedDigits(v / 256, n - 1);
        assert Reversed(Digits(v)) == Reversed(Digits(v / 256)) + [v % 256];
      }
    }
  }

  /** Value of a little-endian byte string. */
  function LittleValue(s: seq<byte>): nat {
    if s == [] then 0 else s[0] + 256 * LittleValue(s[1..])
  }

  /** The value .NET reads from a little-endian two's-complement byte string. */
  function SignedValue(s: seq<byte>): int {
    if s != [] && s[|s| - 1] >= 128 then LittleValue(s) - Pow(256, |s|) else LittleValue(s)
  }

  /** The byte string .NET produces for a non-negative integer: minimal, with a zero sign byte if needed. */
  function SignedBytes(v: nat): seq<byte> {
    var s := Digits(v);
    if s == [] || s[|s| - 1] >= 128 then s + [0] else s
  }

  lemma {:induction false} LittleOfReversed(s: seq<byte>)
    ensures LittleValue(Reversed(s) + [0]) == FromBytes(s)
  {
    if s == [] {
      assert Reversed(s) + [0] == [0];
    } else {
      LittleOfReversed(s[..|s| - 1]);
      assert (Reversed(s) + [0])[1..] == Reversed(s[..|s| - 1]) + [0];
    }
  }

  method FromBigEndian(source: array<byte>, off: nat, len: nat) returns (v: int)
    requires off + len <= source.Length
    ensures v == FromBytes(source[off..off + len])
  {
    var little := new byte[len + 1];
    for i := 0 to len
      invariant forall k :: 0 <= k < i ==> little[k] == source[off + len - 1 - k]
    {
      little[i] := source[off + len - 1 - i];
    }
    little[len] := 0;
    ghost var s := source[off..off + len];
    assert little[..] == Reversed(s) + [0];
    LittleOfReversed(s);
    v := SignedValue(little[..]);
  }

  method ClearSpan(dest: array<byte>, off: nat, len: nat)
    requires off + len <= dest.Length
    modifies dest
    ensures dest[..] == Spliced(old(dest[..]), off, Zeros(len))
  {
    for i := 0 to len
      invariant forall k :: off <= k < off + i ==> dest[k] == 0
      invariant forall k :: 0 <= k < dest.Length && !(off <= k < off + i) ==> dest[k] == old(dest[k])
    {
      dest[off + i] := 0;
    }
  }

  /** Writes `little` backwards so that it ends at `end`. */
  method PlaceBackwards(little: seq<byte>, dest: array<byte>, end: nat)
    requires |little| <= end <= dest.Length
    modifies dest
    ensures dest[..] == Spliced(old(dest[..]), end - |little|, Reversed(little))
  {
    for i := 0 to |little|
      invariant forall k :: end - i <= k < end ==> dest[k] == little[end - 1 - k]
      invariant forall k :: 0 <= k < dest.Length && !(end - i <= k < end) ==> dest[k] == old(dest[k])
    {
      dest[end - 1 - i] := little[i];
    }
  }

  /** Drops the zero bytes at the top of a little-endian string. */
  method Meaningful(ghost value: nat, little: seq<byte>) returns (count: nat)
    requires little == SignedBytes(value)
    ensures count <= |little| && little[..count] == Digits(value)
  {
    count := |little|;
    while count > 0 && little[count - 1] == 0
      invariant |Digits(value)| <= count <= |little|
    {
      count := count - 1;
    }
  }

  /** Refuses a negative value and one too wide for the destination; otherwise right-aligns it. */
  method ToBigEndian(value: int, dest: array<byte>, off: nat, len: nat) returns (ok: bool)
    requires off + len <= dest.Length
    modifies dest
    ensures ok <==> 0 <= value < Pow(256, len)
    ensures ok ==> dest[..] == Spliced(old(dest[..]), off, ToBytes(value, len))
    ensures !ok ==> dest[..] == old(dest[..])
  {
    hide ToBytes, Pow;
    if value < 0 {
      return false;
    }
    var little := SignedBytes(value);
    var meaningful := Meaningful(value, little);
    DigitsBound(value, len);
    if meaningful > len {
      return false;
    }
    PaddedDigits(value, len);
    ClearSpan(dest, off, len);
    PlaceBackwards(little[..meaningful], dest, off + len);
    return true;
  }

  // ----- The cipher -----

  function ModPow(x: nat, e: nat, n: nat): (r: nat)
    requires n > 0
    ensures r < n
  {
    Pow(x, e) % n
  }

  function Encrypted(block: seq<byte>): (c: seq<byte>)
    ensures |c| == BLOCK_SIZE
  {
    ToBytes(ModPow(FromBytes(block), E, N), BLOCK_SIZE)
  }

  function Decrypted(block: seq<byte>): (m: seq<byte>)
    ensures |m| == BLOCK_SIZE
  {
    ToBytes(ModPow(FromBytes(block), D, N), BLOCK_SIZE)
  }

  method EncryptBlock(plain: array<byte>, pOff: nat, pLen: nat, cipher: array<byte>, cOff: nat, cLen: nat)
    returns (ok: bool)
    requires pOff + pLen <= plain.Length && cOff + cLen <= cipher.Length
    modifies cipher
    ensures ok <==> pLen == BLOCK_SIZE && cLen >= BLOCK_SIZE
    ensures ok ==> cipher[..] == Spliced(old(cipher[..]), cOff, Encrypted(old(plain[pOff..pOff + pLen])))
    ensures !ok ==> cipher[..] == old(cipher[..])
  {
    if pLen != BLOCK_SIZE || cLen < BLOCK_SIZE {
      return false;
    }
    var m := FromBigEndian(plain, pOff, pLen);
    var c := ModPow(m, E, N);
    ModulusWidth();
    ok := ToBigEndian(c, cipher, cOff, BLOCK_SIZE);
  }

  method DecryptBlock(cipher: array<byte>, cOff: nat, cLen: nat, plain: array<byte>, pOff: nat, pLen: nat)
    returns (ok: bool)
    requires cOff + cLen <= cipher.Length && pOff + pLen <= plain.Length
    modifies plain
    ensures ok <==> cLen == BLOCK_SIZE && pLen >= BLOCK_SIZE
    ensures ok ==> plain[..] == Spliced(old(plain[..]), pOff, Decrypted(old(cipher[cOff..cOff + cLen])))
    ensures !ok ==> plain[..] == old(plain[..])
  {
    if cLen != BLOCK_SIZE || pLen < BLOCK_SIZE {
      return false;
    }
    var c := FromBigEndian(cipher, cOff, cLen);
    var m := ModPow(c, D, N);
    ModulusWidth();
    ok := ToBigEndian(m, plain, pOff, BLOCK_SIZE);
  }

  function DecryptedBlocks(data: seq<byte>, blocks: nat): (out: seq<byte>)
    requires |data| >= blocks * BLOCK_SIZE
    ensures |out| == blocks * BLOCK_SIZE
  {
    if blocks == 0 then []
    else DecryptedBlocks(data, blocks - 1) + Decrypted(data[(blocks - 1) * BLOCK_SIZE..blocks * BLOCK_SIZE])
  }

  /** The C++ decryptor. The library writes the minimal digits at the start of the block, and the code
      shifts them to its end. */
  method DecryptBlocks(input: array<byte>, inOff: nat, length: nat, output: array<byte>) returns (ok: bool)
    requires inOff + length <= input.Length && length <= output.Length && input != output
    modifies output
    ensures ok <==> length % BLOCK_SIZE == 0
    ensures ok ==> output[..] == DecryptedBlocks(input[..][inOff..inOff + length], length / BLOCK_SIZE)
                                 + old(output[length..])
    ensures !ok ==> output[..] == old(output[..])
  {
    var blocks := length / BLOCK_SIZE;
    if blocks * BLOCK_SIZE != length {
      return false;
    }
    DecryptLoop(input, inOff, blocks, output);
    return true;
  }

  method DecryptLoop(input: array<byte>, inOff: nat, blocks: nat, output: array<byte>)
    requires inOff + blocks * BLOCK_SIZE <= input.Length && blocks * BLOCK_SIZE <= output.Length
    requires input != output
    modifies output
    ensures output[..] == Partial(input[..][inOff..inOff + blocks * BLOCK_SIZE], old(output[..]), blocks)
  {
    hide DecryptedBlocks, Partial;
    ghost var source, before := input[..], output[..];
    ghost var data := source[inOff..inOff + blocks * BLOCK_SIZE];
    NoBlocks(data, before);
    for i := 0 to blocks
      invariant input[..] == source
      invariant output[..] == Partial(data, before, i)
    {
      NextBlock(input, inOff, i, output, data, before);
    }
  }

  method NextBlock(input: array<byte>, inOff: nat, i: nat, output: array<byte>,
                   ghost data: seq<byte>, ghost before: seq<byte>)
    requires input != output && inOff + |data| <= input.Length && input[..][inOff..inOff + |data|] == data
    requires (i + 1) * BLOCK_SIZE <= |data| && (i + 1) * BLOCK_SIZE <= |before|
    requires output[..] == Partial(data, before, i)
    modifies output
    ensures output[..] == Partial(data, before, i + 1)
  {
    hide Spliced, Partial, Decrypted;
    var offset := i * BLOCK_SIZE;
    SliceOfSlice(input[..], inOff, inOff + |data|, offset, offset + BLOCK_SIZE);
    DecryptOne(input, inOff + offset, output, offset);
    BlockAppended(data, before, i);
  }

  /** The output buffer when `i` blocks are done. */
  ghost function Partial(data: seq<byte>, before: seq<byte>, i: nat): (s: seq<byte>)
    requires i * BLOCK_SIZE <= |data| && i * BLOCK_SIZE <= |before|
    ensures |s| == |before|
  {
    DecryptedBlocks(data, i) + before[i * BLOCK_SIZE..]
  }

  lemma NoBlocks(data: seq<byte>, before: seq<byte>)
    ensures Partial(data, before, 0) == before
  {
  }

  lemma BlockAppended(data: seq<byte>, before: seq<byte>, i: nat)
    requires (i + 1) * BLOCK_SIZE <= |data| && (i + 1) * BLOCK_SIZE <= |before|
    ensures Spliced(Partial(data, before, i), i * BLOCK_SIZE,
                    Decrypted(data[i * BLOCK_SIZE..(i + 1) * BLOCK_SIZE]))
         == Partial(data, before, i + 1)
  {
  }

  method DecryptOne(input: array<byte>, at: nat, output: array<byte>, offset: nat)
    requires at + BLOCK_SIZE <= input.Length && offset + BLOCK_SIZE <= output.Length && input != output
    modifies output
    ensures output[..] == Spliced(old(output[..]), offset, Decrypted(input[..][at..at + BLOCK_SIZE]))
  {
    assert input[..][at..at + BLOCK_SIZE] == input[at..at + BLOCK_SIZE];
    var c := FromBigEndian(input, at, BLOCK_SIZE);
    var m := ModPow(c, D, N);
    ModulusWidth();
    WriteAndPad(m, output, offset);
  }

  lemma PadSplice(before: seq<byte>, off: nat, pad: nat, bytes: seq<byte>)
    requires off + pad + |bytes| <= |before|
    ensures Spliced(Spliced(Spliced(before, off, bytes), off, Zeros(pad)), off + pad, bytes)
         == Spliced(before, off, Zeros(pad) + bytes)
  {
  }

  /** Digits written first and then moved to the right end of the block, in all three cases of their number. */
  lemma MovedRight(before: seq<byte>, off: nat, bytes: seq<byte>)
    requires |bytes| <= BLOCK_SIZE && off + BLOCK_SIZE <= |before|
    ensures var (first, pad) := (Spliced(before, off, bytes), BLOCK_SIZE - |bytes|);
      var padded := Spliced(before, off, Zeros(pad) + bytes);
      && Spliced(Spliced(first, off, Zeros(pad)), off + pad, bytes) == padded
      && (bytes == [] ==> Spliced(first, off, Zeros(BLOCK_SIZE)) == padded)
      && (pad == 0 ==> first == padded)
  {
    PadSplice(before, off, BLOCK_SIZE - |bytes|, bytes);
    if bytes == [] {
      SpliceNothing(before, off);
      assert Zeros(BLOCK_SIZE) + bytes == Zeros(BLOCK_SIZE);
    }
    assert Zeros(0) + bytes == bytes;
  }

  /** One block of the C++ decryptor: minimal digits first, then the move to the right end. */
  method WriteAndPad(m: nat, output: array<byte>, offset: nat)
    requires m < Pow(256, BLOCK_SIZE) && offset + BLOCK_SIZE <= output.Length
    modifies output
    ensures output[..] == Spliced(old(output[..]), offset, ToBytes(m, BLOCK_SIZE))
  {
    hide Spliced, ToBytes, Digits, Reversed, Pow;
    PaddedDigits(m, BLOCK_SIZE);
    var bytes := Reversed(Digits(m));
    var size := |bytes|;
    SplicedSpan(output[..], offset, bytes);
    MovedRight(output[..], offset, bytes);
    CopyInto(output, offset, bytes);
    assert output[offset..offset + size] == bytes;
    if size == 0 {
      ClearSpan(output, offset, BLOCK_SIZE);
    } else if size < BLOCK_SIZE {
      var temp := output[offset..offset + size];
      ClearSpan(output, offset, BLOCK_SIZE - size);
      CopyInto(output, offset + BLOCK_SIZE - size, temp);
    }
  }

  /** Each 64 bytes of the output are the decryption of the same 64 bytes of the input. */
  lemma {:induction false} BlockOf(data: seq<byte>, blocks: nat, k: nat)
    requires |data| >= blocks * 64 && k < blocks
    ensures k * 64 + 64 <= |data|
    ensures DecryptedBlocks(data, blocks)[k * 64..k * 64 + 64] == Decrypted(data[k * 64..k * 64 + 64])
  {
    hide Decrypted;
    if k < blocks - 1 {
      BlockOf(data, blocks - 1, k);
      var front := DecryptedBlocks(data, blocks - 1);
      assert DecryptedBlocks(data, blocks)[k * 64..k * 64 + 64] == front[k * 64..k * 64 + 64];
    }
  }

  // ----- The key -----

  lemma {:induction false} PowDoubles(x: int, n: nat)
    ensures Pow(x, n + n) == Pow(x, n) * Pow(x, n)
  {
    PowSum(x, n, n);
  }

  /** The modulus needs all 64 bytes, and no residue needs more. */
  lemma ModulusWidth()
    ensures Pow(256, 63) <= N < Pow(256, 64)
  {
    assert Pow(256, 1) == 256 * Pow(256, 0);
    PowDoubles(256, 1);
    PowDoubles(256, 2);
    PowDoubles(256, 4);
    PowDoubles(256, 8);
    PowDoubles(256, 16);
    PowDoubles(256, 32);
    assert Pow(256, 64) == 256 * Pow(256, 63);
  }

  /** The published constants form an RSA key: the modulus is the product, and the exponents are inverse
      modulo both `P - 1` and `Q - 1`. */
  lemma KeyCongruences() returns (j: nat, k: nat)
    ensures P * Q == N && P != Q
    ensures E * D == 1 + j * (P - 1) && E * D == 1 + k * (Q - 1)
  {
    j, k := (E * D - 1) / (P - 1), (E * D - 1) / (Q - 1);
  }

  /** The one assumption about the constants: that the two published factors are prime. */
  ghost predicate KeyPrimes() { IsPrime(P) && IsPrime(Q) }

  /** Decryption undoes encryption on integers, up to reduction by the modulus. */
  lemma ValueRoundTrip(m: nat)
    requires KeyPrimes()
    ensures ModPow(ModPow(m, E, N), D, N) == m % N
  {
    var c := Pow(m, E);
    var j, k := KeyCongruences();
    RsaFixedPoint(P, Q, E, D, j, k, m);
    PowNonNegative(m, E);
    RemainderCongruent(c, N);
    CongruentPow(c % N, c, D, N);
    PowPow(m, E, D);
    CongruentTrans(Pow(c % N, D), Pow(c, D), m, N);
    RemainderCongruent(m, N);
    DividesSum(N, Pow(c % N, D) - m, m % N - m);
    ResidueUnique(Pow(c % N, D), m % N, N);
  }

  lemma {:induction false} PowNonNegative(x: nat, n: nat)
    ensures Pow(x, n) >= 0
  {
    if n > 0 {
      PowNonNegative(x, n - 1);
    }
  }

  /** A block survives encryption and decryption exactly when its value is below the modulus. */
  lemma BlockRoundTrip(block: seq<byte>)
    requires |block| == BLOCK_SIZE && KeyPrimes()
    ensures Decrypted(Encrypted(block)) == block <==> FromBytes(block) < N
  {
    var m := FromBytes(block);
    ModulusWidth();
    FromTo(ModPow(m, E, N), BLOCK_SIZE);
    ValueRoundTrip(m);
    ToFrom(block);
    FromTo(m % N, BLOCK_SIZE);
    if m < N {
      RemainderIs(m, N, 0, m);
    }
  }
}
