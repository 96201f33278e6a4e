/** The key transport that opens a client connection: the server's preamble, the client's encrypted key
    packet, and the three readers of that packet. */
module KeyExchange {
  import opened Bytes
  import opened NumberTheory
  import opened Rsa

  const KEY_SIZE: nat := 8

  /** Why a handshake stops, or the session key it yields. */
  datatype Outcome = Probe | ShortLength | BadLength | ShortBlock | Established(key: seq<byte>)

  /** The session key sits reversed at the end of a block that is zero elsewhere. */
  function KeyBlock(key: seq<byte>): (block: seq<byte>)
    requires |key| == KEY_SIZE
    ensures |block| == BLOCK_SIZE
  {
    Zeros(BLOCK_SIZE - KEY_SIZE) + Reversed(key)
  }

  function KeyFromBlock(block: seq<byte>): (key: seq<byte>)
    requires |block| == BLOCK_SIZE
    ensures |key| == KEY_SIZE
  {
    seq(KEY_SIZE, i requires 0 <= i < KEY_SIZE => block[BLOCK_SIZE - 1 - i])
  }

  function ClientKeyPacket(key: seq<byte>): (wire: seq<byte>)
    requires |key| == KEY_SIZE
    ensures |wire| == 4 + BLOCK_SIZE
  {
    [0, 0, 0, 64] + Encrypted(KeyBlock(key))
  }

  /** The 74 bytes the server sends first: length-prefixed modulus and exponent. */
  function Preamble(): (s: seq<byte>)
    ensures |s| == 74
  {
    [0, 0, 0, 0x41, 0] + ToBytes(N, BLOCK_SIZE) + [0, 0, 0, 1, 35]
  }

  /** What the server makes of the bytes a client sends before closing or continuing. */
  function Handshake(input: seq<byte>): Outcome {
    if input == [] then Probe
    else if |input| < 4 then ShortLength
    else
      var length := FromBytes(input[..4]);
      if length < BLOCK_SIZE || length > BLOCK_SIZE + 1 then BadLength
      else if |input| < 4 + length then ShortBlock
      else
        var start := if length == BLOCK_SIZE + 1 && input[4] == 0 then 5 else 4;
        Established(KeyFromBlock(Decrypted(input[start..start + BLOCK_SIZE])))
  }

  /** How many bytes an established handshake has read. */
  function KeyBytes(input: seq<byte>): (n: nat)
    requires Handshake(input).Established?
    ensures 68 <= n <= 69 && n <= |input|
  {
    4 + FromBytes(input[..4])
  }

  // ----- Implementations -----

  /** Builds the packet in place: the block is encrypted onto itself inside the wire buffer. */
  method BuildClientKeyPacketFromKey(sessionKey: seq<byte>) returns (ok: bool, wire: array<byte>)
    ensures ok <==> |sessionKey| == KEY_SIZE
    ensures ok ==> fresh(wire) && wire[..] == ClientKeyPacket(sessionKey)
  {
    if |sessionKey| != KEY_SIZE {
      wire := new byte[0];
      return false, wire;
    }
    wire := new byte[4 + BLOCK_SIZE](_ => 0);
    wire[3] := BLOCK_SIZE;
    for i := 0 to KEY_SIZE
      invariant wire[..4] == [0, 0, 0, 64]
      invariant forall k :: 4 <= k < 4 + BLOCK_SIZE ==>
        wire[k] == if k < 4 + BLOCK_SIZE - i then 0 else sessionKey[4 + BLOCK_SIZE - 1 - k]
    {
      wire[4 + BLOCK_SIZE - 1 - i] := sessionKey[i];
    }
    assert wire[4..4 + BLOCK_SIZE] == KeyBlock(sessionKey);
    ok := EncryptBlock(wire, 4, BLOCK_SIZE, wire, 4, BLOCK_SIZE);
  }

  method ExtractSessionKeyFromDecryptedBlock(block: seq<byte>) returns (ok: bool, key: array<byte>)
    ensures ok <==> |block| == BLOCK_SIZE
    ensures ok ==> key[..] == KeyFromBlock(block)
  {
    if |block| != BLOCK_SIZE {
      key := new byte[0];
      return false, key;
    }
    key := new byte[KEY_SIZE](_ => 0);
    for i := 0 to KEY_SIZE
      invariant forall k :: 0 <= k < i ==> key[k] == block[BLOCK_SIZE - 1 - k]
    {
      key[i] := block[BLOCK_SIZE - 1 - i];
    }
    return true, key;
  }

  lemma FullDigits(v: nat, n: nat)
    requires n > 0 && Pow(256, n - 1) <= v < Pow(256, n)
    ensures |Digits(v)| == n && Reversed(Digits(v)) == ToBytes(v, n)
  {
    DigitsBound(v, n);
    DigitsBound(v, n - 1);
    PaddedDigits(v, n);
    assert Zeros(0) + Reversed(Digits(v)) == Reversed(Digits(v));
  }

  /** The length-prefixed modulus: a fixed five-byte prefix, then the minimal digits, then a 64-byte advance.
      The digits fill exactly those 64 bytes. */
  method GetModulus(buffer: array<byte>, off: nat) returns (count: nat)
    requires off + 69 <= buffer.Length
    modifies buffer
    ensures count == 69
    ensures buffer[..] == Spliced(old(buffer[..]), off, [0, 0, 0, 0x41, 0] + ToBytes(N, BLOCK_SIZE))
  {
    ModulusWidth();
    FullDigits(N, BLOCK_SIZE);
    SpliceAppends(buffer[..], off, [0, 0, 0, 0x41, 0], Reversed(Digits(N)));
    CopyInto(buffer, off, [0, 0, 0, 0x41, 0]);
    CopyInto(buffer, off + 5, Reversed(Digits(N)));
    return 69;
  }

  method GetPublicExponent(buffer: array<byte>, off: nat) returns (count: nat)
    requires off + 5 <= buffer.Length
    modifies buffer
    ensures count == 5
    ensures buffer[..] == Spliced(old(buffer[..]), off, [0, 0, 0, 1, 35])
  {
    SpliceAppends(buffer[..], off, [0, 0, 0, 1], [35]);
    CopyInto(buffer, off, [0, 0, 0, 1]);
    CopyInto(buffer, off + 4, [35]);
    return 5;
  }

  // ----- The capture script's reader -----

  function Slice(s: seq<byte>, lo: nat, hi: nat): seq<byte>
    requires lo <= hi
  {
    if hi <= |s| then s[lo..hi] else if lo <= |s| then s[lo..] else []
  }

  predicate LooksLikeHandshake(c2p: seq<byte>) {
    |c2p| >= 4 + BLOCK_SIZE && BLOCK_SIZE <= FromBytes(c2p[..4]) <= BLOCK_SIZE + 1
  }

  /** `session_key_from_block(rsa_decrypt(blk))`, with its own test for the optional leading zero. */
  function ScriptKey(c2p: seq<byte>): seq<byte>
    requires LooksLikeHandshake(c2p)
  {
    var block := if FromBytes(c2p[..4]) == BLOCK_SIZE + 1 && c2p[4] == 0
                 then Slice(c2p, 5, 5 + BLOCK_SIZE) else Slice(c2p, 4, 4 + BLOCK_SIZE);
    KeyFromBlock(Decrypted(block))
  }

  /** Whenever the server establishes a session, the script reads the same key from the same bytes. */
  lemma ScriptAgrees(c2p: seq<byte>)
    ensures Handshake(c2p).Established? ==>
      LooksLikeHandshake(c2p) && ScriptKey(c2p) == Handshake(c2p).key
  {
  }

  // ----- Key transport -----

  lemma {:induction false} PowMonotone(m: nat, n: nat)
    requires m <= n
    ensures Pow(256, m) <= Pow(256, n)
  {
    if m < n {
      PowPositive(n - 1);
      PowMonotone(m, n - 1);
    }
  }

  /** Every key block is below the modulus, so it survives encryption. */
  lemma KeyBlockFits(key: seq<byte>)
    requires |key| == KEY_SIZE
    ensures FromBytes(KeyBlock(key)) < N
  {
    LeadingZeros(BLOCK_SIZE - KEY_SIZE, Reversed(key));
    FromBytesBound(Reversed(key));
    PowMonotone(KEY_SIZE, 63);
    ModulusWidth();
  }

  /** The server recovers exactly the key the client sent, in the plain form and in the form with an extra
      leading zero byte, whatever follows on the stream. */
  lemma KeyTransport(key: seq<byte>, rest: seq<byte>)
    requires |key| == KEY_SIZE && KeyPrimes()
    ensures Handshake(ClientKeyPacket(key) + rest) == Established(key)
    ensures Handshake([0, 0, 0, 65, 0] + Encrypted(KeyBlock(key)) + rest) == Established(key)
  {
    var block := KeyBlock(key);
    KeyBlockFits(key);
    BlockRoundTrip(block);
    assert KeyFromBlock(block) == key;
    LengthField(64);
    LengthField(65);
    var plain := ClientKeyPacket(key) + rest;
    assert plain[..4] == [0, 0, 0, 64] && plain[4..4 + BLOCK_SIZE] == Encrypted(block);
    var padded := [0, 0, 0, 65, 0] + Encrypted(block) + rest;
    assert padded[..4] == [0, 0, 0, 65] && padded[5..5 + BLOCK_SIZE] == Encrypted(block);
  }

  lemma LengthField(n: byte)
    ensures FromBytes([0, 0, 0, n]) == n
  {
    assert [0, 0, 0, n] == Zeros(3) + [n];
    LeadingZeros(3, [n]);
    assert [n][..0] == [];
  }

  /** Four bytes as the network orders them. */
  function NetworkLong(b0: int, b1: int, b2: int, b3: int): int {
    0x100_0000 * b0 + 0x1_0000 * b1 + 0x100 * b2 + b3
  }

  lemma FourBytes(s: seq<byte>)
    requires |s| == 4
    ensures FromBytes(s) == NetworkLong(s[0], s[1], s[2], s[3])
  {
    var b0: int, b1: int, b2: int := s[0], s[1], s[2];
    assert s[..3][..2] == s[..2] && s[..2][..1] == s[..1] && s[..1][..0] == [];
    assert FromBytes(s[..1]) == b0;
    assert FromBytes(s[..2]) == 256 * b0 + b1;
    assert FromBytes(s[..3]) == 256 * (256 * b0 + b1) + b2;
  }

  /** What a handshake comes to, in terms of the bytes alone: a session is established exactly by a big-endian
      length of 64 or 65 with that many bytes behind it. */
  lemma HandshakeExactly(input: seq<byte>)
    ensures var n := if |input| < 4 then 0 else NetworkLong(input[0], input[1], input[2], input[3]);
      && (Handshake(input) == Probe <==> |input| == 0)
      && (Handshake(input) == ShortLength <==> 0 < |input| < 4)
      && (Handshake(input) == BadLength <==> |input| >= 4 && n != 64 && n != 65)
      && (Handshake(input) == ShortBlock <==> |input| >= 4 && (n == 64 || n == 65) && |input| < 4 + n)
      && (Handshake(input).Established? <==> |input| >= 4 && (n == 64 || n == 65) && |input| >= 4 + n)
  {
    hide FromBytes, Decrypted;
    if |input| >= 4 {
      FourBytes(input[..4]);
    }
  }

  /** A client that knows nothing but the 74 bytes of the preamble is understood: it takes modulus and exponent from
      their places there, puts the key reversed at the end of a block of zeros, and raises the block's value. */
  lemma PublicClientUnderstood(key: seq<byte>, rest: seq<byte>)
    requires |key| == 8 && KeyPrimes()
    ensures var n, e := FromBytes(Preamble()[5..69]), FromBytes(Preamble()[73..74]);
      var block := Zeros(56) + [key[7], key[6], key[5], key[4], key[3], key[2], key[1], key[0]];
      n > 0 && Handshake([0, 0, 0, 64] + ToBytes(ModPow(FromBytes(block), e, n), 64) + rest) == Established(key)
  {
    hide FromBytes, ToBytes, ModPow, Encrypted, Handshake;
    var n, e := FromBytes(Preamble()[5..69]), FromBytes(Preamble()[73..74]);
    PublishedKey();
    var block := Zeros(56) + [key[7], key[6], key[5], key[4], key[3], key[2], key[1], key[0]];
    assert block == KeyBlock(key);
    EncryptedIs(block);
    KeyTransport(key, rest);
  }

  lemma EncryptedIs(block: seq<byte>)
    ensures Encrypted(block) == ToBytes(ModPow(FromBytes(block), 35, N), 64)
  {
    hide FromBytes, ToBytes, ModPow;
  }

  /** Where the preamble carries modulus and exponent. */
  lemma PublishedKey()
    ensures FromBytes(Preamble()[5..69]) == N && FromBytes(Preamble()[73..74]) == 35
    ensures Preamble()[..4] == [0, 0, 0, 65] && Preamble()[69..73] == [0, 0, 0, 1]
  {
    hide ToBytes;
    assert Preamble()[5..69] == ToBytes(N, 64);
    ModulusWidth();
    FromTo(N, 64);
    assert Preamble()[73..74] == [35];
    assert [35][..0] == [];
  }
}
