/** The client connection object: key exchange, frame writer and frame reader. */
module Channel {
  import opened Bytes
  import opened NumberTheory
  import opened Rc4
  import Rsa
  import opened KeyExchange
  import opened Framing

  class Connection {
    const sendBuffer: array<byte>
    const recvBuffer: array<byte>
    const cryptIn: WestwoodRC4
    const cryptOut: WestwoodRC4
    var active: bool
    var wire: seq<byte>  // every byte the socket has accepted

    ghost predicate Valid()
      reads this
    {
      && sendBuffer.Length == MAX_BUFFER && recvBuffer.Length == MAX_BUFFER
      && cryptIn.state.Length == 256 && cryptOut.state.Length == 256
      && cryptIn != cryptOut && cryptIn.state != cryptOut.state
      && sendBuffer != recvBuffer
      && sendBuffer !in {cryptIn.state, cryptOut.state} && recvBuffer !in {cryptIn.state, cryptOut.state}
    }

    constructor ()
      ensures Valid() && active && wire == []
    {
      sendBuffer := new byte[MAX_BUFFER](_ => 0);
      recvBuffer := new byte[MAX_BUFFER](_ => 0);
      cryptIn := new WestwoodRC4();
      cryptOut := new WestwoodRC4();
      active, wire := true, [];
    }

    /** Frames, enciphers and sends one message. `accepted` is how many bytes the socket takes before it
        fails; anything short of the frame ends the connection. */
    method SendResponse(opcode: int, data: seq<byte>, accepted: nat)
      requires Valid()
      modifies this`active, this`wire, sendBuffer, cryptOut, cryptOut.state
      ensures Valid()
      ensures !old(active) || |data| > MAX_BUFFER - HEADER ==>
        active == old(active) && wire == old(wire) && cryptOut.View() == old(cryptOut.View())
      ensures old(active) && |data| <= MAX_BUFFER - HEADER ==>
        var frame := Frame(Message(opcode % 0x1_0000, data));
        var out := Crypt(old(cryptOut.View()), frame);
        && cryptOut.View() == After(old(cryptOut.View()), |frame|)
        && wire == old(wire) + (if accepted < |frame| then out[..accepted] else out)
        && active == (accepted >= |frame|)
    {
      hide After, Crypt;
      if !active || |data| > MAX_BUFFER - HEADER {
        return;
      }
      var total := |data| + HEADER;
      Le16Modulo(opcode);
      CopyInto(sendBuffer, 0, Le16(total));
      CopyInto(sendBuffer, 2, Le16(opcode));
      CopyInto(sendBuffer, HEADER, data);
      assert sendBuffer[..total] == Frame(Message(opcode % 0x1_0000, data));
      cryptOut.RC4(sendBuffer, total);
      wire := wire + sendBuffer[..if accepted < total then accepted else total];
      if accepted < total {
        active := false;
      }
    }

    /** Sends the preamble, reads the client's key packet and keys both directions. `input` is what the
        client sends before it closes or goes on; `accepted` is how many bytes of the preamble the socket takes before
        it fails, and anything short of the whole ends the exchange. */
    method DoKeyExchange(input: seq<byte>, accepted: nat) returns (ok: bool)
      requires Valid()
      modifies this`wire, cryptIn, cryptIn.state, cryptOut, cryptOut.state
      ensures Valid()
      ensures wire == old(wire) + (if accepted < |Preamble()| then Preamble()[..accepted] else Preamble())
      ensures ok <==> accepted >= |Preamble()| && Handshake(input).Established?
      ensures ok ==> cryptIn.View() == cryptOut.View() == Prepared(Handshake(input).key)
    {
      var buffer := new byte[128](_ => 0);
      var length := BuildPreamble(buffer);
      assert length == |Preamble()|;
      wire := wire + buffer[..if accepted < length then accepted else length];
      assert accepted < length ==> buffer[..accepted] == buffer[..length][..accepted];
      if accepted < length {
        return false;
      }
      var sessionKey;
      ok, sessionKey := ReadKey(input, buffer);
      if ok {
        cryptIn.PrepareKey(sessionKey);
        cryptOut.PrepareKey(sessionKey);
      }
    }

    static method BuildPreamble(buffer: array<byte>) returns (length: nat)
      requires buffer.Length >= 74
      modifies buffer
      ensures length == 74 && buffer[..length] == Preamble()
    {
      SpliceAppends(buffer[..], 0, [0, 0, 0, 0x41, 0] + Rsa.ToBytes(Rsa.N, Rsa.BLOCK_SIZE), [0, 0, 0, 1, 35]);
      length := GetModulus(buffer, 0);
      var more := GetPublicExponent(buffer, length);
      return length + more;
    }

    /** Reads and decrypts the client's key packet, reusing the preamble's buffer. */
    static method ReadKey(input: seq<byte>, buffer: array<byte>) returns (ok: bool, sessionKey: array<byte>)
      requires buffer.Length == 128
      modifies buffer
      ensures fresh(sessionKey)
      ensures ok <==> Handshake(input).Established?
      ensures ok ==> sessionKey[..] == Handshake(input).key
    {
      sessionKey := new byte[0];
      if |input| < 4 {
        return false, sessionKey;
      }
      CopyInto(buffer, 0, input[..4]);
      assert buffer[..4] == input[..4];
      var keyLength := FromFour(buffer);
      if keyLength < Rsa.BLOCK_SIZE || keyLength > Rsa.BLOCK_SIZE + 1 || |input| < 4 + keyLength {
        return false, sessionKey;
      }
      CopyInto(buffer, 0, input[4..4 + keyLength]);
      var p := 0;
      if keyLength == Rsa.BLOCK_SIZE + 1 && buffer[p] == 0 {
        p := p + 1;
      }
      CopiedSlice(input, keyLength, buffer[..], p, Rsa.BLOCK_SIZE);
      sessionKey := DecryptKey(buffer, p);
      return true, sessionKey;
    }

    /** Reads the four-byte big-endian key length. */
    static method FromFour(buffer: array<byte>) returns (v: nat)
      requires buffer.Length >= 4
      ensures v == Rsa.FromBytes(buffer[..4])
    {
      v := 0;
      for i := 0 to 4
        invariant v == Rsa.FromBytes(buffer[..i])
      {
        assert buffer[..i + 1][..i] == buffer[..i];
        v := 256 * v + buffer[i];
      }
    }

    /** Decrypts one block and reverses its last eight bytes into the session key. */
    static method DecryptKey(buffer: array<byte>, p: nat) returns (sessionKey: array<byte>)
      requires p + Rsa.BLOCK_SIZE <= buffer.Length
      ensures fresh(sessionKey)
      ensures sessionKey[..] == KeyFromBlock(Rsa.Decrypted(buffer[..][p..p + Rsa.BLOCK_SIZE]))
    {
      var rc4key := new byte[Rsa.BLOCK_SIZE](_ => 0);
      var ok := Rsa.DecryptBlocks(buffer, p, Rsa.BLOCK_SIZE, rc4key);
      SingleBlock(buffer[..][p..p + Rsa.BLOCK_SIZE]);
      assert rc4key[..] == Rsa.Decrypted(buffer[..][p..p + Rsa.BLOCK_SIZE]);
      sessionKey := KeyOf(rc4key);
    }

    /** The last eight bytes of the block, in reverse. */
    static method KeyOf(rc4key: array<byte>) returns (sessionKey: array<byte>)
      requires rc4key.Length == Rsa.BLOCK_SIZE
      ensures fresh(sessionKey) && sessionKey[..] == KeyFromBlock(rc4key[..])
    {
      sessionKey := new byte[KEY_SIZE](_ => 0);
      for i := 0 to KEY_SIZE
        invariant forall k :: 0 <= k < i ==> sessionKey[k] == rc4key[Rsa.BLOCK_SIZE - 1 - k]
      {
        sessionKey[i] := rc4key[(Rsa.BLOCK_SIZE - 1) - i];
      }
    }

    /** The receive thread: the key exchange, then the frames that follow it. `stopAfter` is how many frames have been
        dispatched when the thread is told to stop or the server shuts down. */
    method RunRecvThread(input: seq<byte>, accepted: nat, stopAfter: nat) returns (frames: seq<Message>)
      requires Valid()
      modifies this`active, this`wire, recvBuffer, cryptIn, cryptIn.state, cryptOut, cryptOut.state
      ensures Valid() && !active
      ensures wire == old(wire) + (if accepted < |Preamble()| then Preamble()[..accepted] else Preamble())
      ensures !(accepted >= |Preamble()| && Handshake(input).Established?) ==> frames == []
      ensures accepted >= |Preamble()| && Handshake(input).Established? ==>
        var all := Received(Prepared(Handshake(input).key), input[KeyBytes(input)..]);
        frames == all[..if stopAfter < |all| then stopAfter else |all|]
    {
      hide Received, Prepared;
      var ok := DoKeyExchange(input, accepted);
      if !ok {
        active := false;
        return [];
      }
      frames := ReadFrames(input[KeyBytes(input)..], stopAfter);
    }

    /** Deciphers and dispatches frames until told to stop, the stream ends short or a length is out of range. */
    method ReadFrames(input: seq<byte>, stopAfter: nat) returns (frames: seq<Message>)
      requires Valid()
      modifies this`active, recvBuffer, cryptIn, cryptIn.state
      ensures Valid() && !active
      ensures var all := Received(old(cryptIn.View()), input);
        frames == all[..if stopAfter < |all| then stopAfter else |all|]
    {
      hide Received, After;
      frames := [];
      var i := 0;
      ghost var c0 := cryptIn.View();
      var more := true;
      while more && |frames| < stopAfter
        invariant Valid() && i <= |input| && |frames| <= stopAfter
        invariant more ==> Received(c0, input) == frames + Received(cryptIn.View(), input[i..])
        invariant !more ==> Received(c0, input) == frames
        decreases more, |input| - i
      {
        var ok, m := ReceiveFrame(input[i..]);
        if ok {
          frames := frames + [m];
          assert input[i..][HEADER + |m.payload|..] == input[i + HEADER + |m.payload|..];
          i := i + HEADER + |m.payload|;
        } else {
          more := false;
        }
      }
      active := false;
    }

    /** One pass of the reader: header in, deciphered, then payload in, deciphered by a second call. */
    method ReceiveFrame(input: seq<byte>) returns (ok: bool, m: Message)
      requires Valid()
      modifies recvBuffer, cryptIn, cryptIn.state
      ensures Valid()
      ensures !ok ==> Received(old(cryptIn.View()), input) == []
      ensures ok ==> HEADER + |m.payload| <= |input|
      ensures ok ==> Received(old(cryptIn.View()), input)
                     == [m] + Received(cryptIn.View(), input[HEADER + |m.payload|..])
    {
      hide After, Crypt, WordAt;
      m := Message(0, []);
      if |input| < HEADER {
        return false, m;
      }
      ghost var c := cryptIn.View();
      var header := ReceiveHeader(input);
      var size := WordAt(header, 0);
      if size < HEADER || size - HEADER >= MAX_BUFFER || size > |input| {
        return false, m;
      }
      var payload := ReceivePayload(input[HEADER..size]);
      return true, Message(WordAt(header, 2), payload);
    }

    method ReceiveHeader(input: seq<byte>) returns (header: seq<byte>)
      requires Valid() && |input| >= HEADER
      modifies cryptIn, cryptIn.state
      ensures header == Crypt(old(cryptIn.View()), input[..HEADER])
      ensures cryptIn.View() == After(old(cryptIn.View()), HEADER)
    {
      var raw := new byte[HEADER](i requires 0 <= i < HEADER => input[i]);
      assert raw[..HEADER] == input[..HEADER];
      cryptIn.RC4(raw, HEADER);
      header := raw[..HEADER];
    }

    method ReceivePayload(raw: seq<byte>) returns (payload: seq<byte>)
      requires Valid() && |raw| < MAX_BUFFER
      modifies recvBuffer, cryptIn, cryptIn.state
      ensures payload == Crypt(old(cryptIn.View()), raw)
      ensures cryptIn.View() == After(old(cryptIn.View()), |raw|)
    {
      CopyInto(recvBuffer, 0, raw);
      assert recvBuffer[..|raw|] == raw;
      if |raw| > 0 {
        cryptIn.RC4(recvBuffer, |raw|);
      }
      payload := recvBuffer[..|raw|];
    }
  }

  lemma CopiedSlice(input: seq<byte>, n: nat, buffer: seq<byte>, p: nat, len: nat)
    requires 4 + n <= |input| && n <= |buffer| && p + len <= n && buffer[..n] == input[4..4 + n]
    ensures buffer[p..p + len] == input[4 + p..4 + p + len]
  {
    SliceOfSlice(input, 4, 4 + n, p, p + len);
    SliceOfSlice(buffer, 0, n, p, p + len);
  }

  lemma SingleBlock(data: seq<byte>)
    requires |data| == Rsa.BLOCK_SIZE
    ensures Rsa.DecryptedBlocks(data, 1) == Rsa.Decrypted(data)
  {
    assert data[0..Rsa.BLOCK_SIZE] == data;
    assert Rsa.DecryptedBlocks(data, 0) == [];
  }

  lemma Le16Modulo(v: int)
    ensures Le16(v) == Le16(v % 0x1_0000)
  {
    var w := v % 0x1_0000;
    Le16Value(v);
    RemainderIs(w, 256, v / 256 % 256, v % 256);
    RemainderIs(v / 256 % 256, 256, 0, v / 256 % 256);
  }
}
