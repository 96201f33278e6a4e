/** Frames on the encrypted client leg, the two readers of them, and the session law. */
module Framing {
  import opened Bytes
  import opened Rc4

  const MAX_BUFFER: nat := 25000
  const HEADER: nat := 4

  /** One opcode with its payload; the opcode is the 16-bit pattern on the wire. */
  datatype Message = Message(opcode: nat, payload: seq<byte>)

  predicate Sendable(m: Message) { m.opcode < 0x1_0000 && |m.payload| <= MAX_BUFFER - HEADER }

  /** `[length:u16][opcode:u16][payload]`, the length counting the header. */
  function Frame(m: Message): (f: seq<byte>)
    ensures |f| == HEADER + |m.payload|
  {
    Le16(HEADER + |m.payload|) + Le16(m.opcode) + m.payload
  }

  function Frames(ms: seq<Message>): seq<byte> {
    if ms == [] then [] else Frames(ms[..|ms| - 1]) + Frame(ms[|ms| - 1])
  }

  // ----- Readers -----

  /** The capture script's walk over clear text: stops at the first length that is short or overruns. */
  function Walked(s: seq<byte>): seq<Message>
    decreases |s|
  {
    if |s| < HEADER then []
    else
      var ln := WordAt(s, 0);
      if ln < HEADER || ln > |s| then []
      else [Message(WordAt(s, 2), s[HEADER..ln])] + Walked(s[ln..])
  }

  method Walk(stream: seq<byte>) returns (res: seq<Message>)
    ensures res == Walked(stream)
  {
    res := [];
    var i := 0;
    while i + 4 <= |stream|
      invariant i <= |stream|
      invariant Walked(stream) == res + Walked(stream[i..])
    {
      var rest := stream[i..];
      var ln, op := WordAt(rest, 0), WordAt(rest, 2);
      if ln < 4 || i + ln > |stream| {
        return;
      }
      assert rest[ln..] == stream[i + ln..];
      res := res + [Message(op, rest[4..ln])];
      i := i + ln;
    }
  }

  /** The cipher after a frame of `size` bytes, header and payload processed separately. */
  function AfterFrame(c: Cipher, size: nat): Cipher
    requires size >= HEADER
  {
    After(After(c, HEADER), size - HEADER)
  }

  /** The proxy's reader: header and payload deciphered by separate calls, stopping at a short read or at
      a length the buffer cannot hold. */
  function Received(c: Cipher, s: seq<byte>): seq<Message>
    decreases |s|
  {
    if |s| < HEADER then []
    else
      var header := Crypt(c, s[..HEADER]);
      var size := WordAt(header, 0);
      if size < HEADER || size - HEADER >= MAX_BUFFER || size > |s| then []
      else [Message(WordAt(header, 2), Crypt(After(c, HEADER), s[HEADER..size]))]
           + Received(AfterFrame(c, size), s[size..])
  }

  // ----- Laws -----

  lemma {:induction false} FramesAppend(a: seq<Message>, b: seq<Message>)
    ensures Frames(a + b) == Frames(a) + Frames(b)
  {
    hide Frame;
    if b == [] {
      assert a + b == a;
    } else {
      var init := b[..|b| - 1];
      FramesAppend(a, init);
      assert (a + b)[..|a + b| - 1] == a + init && (a + b)[|a + b| - 1] == b[|b| - 1];
      assert Frames(a + b) == Frames(a + init) + Frame(b[|b| - 1]);
    }
  }

  lemma FirstFrame(ms: seq<Message>)
    requires ms != []
    ensures Frames(ms) == Frame(ms[0]) + Frames(ms[1..])
  {
    FramesAppend([ms[0]], ms[1..]);
    assert [ms[0]] + ms[1..] == ms;
    assert Frames([ms[0]]) == Frames([ms[0]][..0]) + Frame(ms[0]);
    assert Frames([ms[0]][..0]) == [];
  }

  lemma FrameHeader(m: Message, rest: seq<byte>)
    requires Sendable(m)
    ensures var s := Frame(m) + rest;
      WordAt(s, 0) == |Frame(m)| && WordAt(s, 2) == m.opcode && s[HEADER..|Frame(m)|] == m.payload
  {
    var s := Frame(m) + rest;
    assert s[0..2] == Le16(HEADER + |m.payload|);
    assert s[2..4] == Le16(m.opcode);
    WordRoundTrip(HEADER + |m.payload|, s, 0);
    WordRoundTrip(m.opcode, s, 2);
  }

  /** A frame byte by byte: length and opcode with the low byte first, then the payload. */
  lemma FrameBytes(m: Message)
    requires Sendable(m)
    ensures var f, n := Frame(m), 4 + |m.payload|;
      && |f| == n && f[0] as int == n % 256 && f[1] as int == n / 256
      && f[2] as int == m.opcode % 256 && f[3] as int == m.opcode / 256 && f[4..] == m.payload
  {
    var n := 4 + |m.payload|;
    HighByte(n);
    HighByte(m.opcode);
  }

  lemma HighByte(n: nat)
    requires n < 0x1_0000
    ensures n / 256 % 256 == n / 256
  {
  }

  /** Walking the concatenated frames gives back exactly the messages. */
  lemma {:induction false} WalkFrames(ms: seq<Message>)
    requires forall m <- ms :: Sendable(m)
    ensures Walked(Frames(ms)) == ms
  {
    if ms != [] {
      FirstFrame(ms);
      FrameHeader(ms[0], Frames(ms[1..]));
      WalkFrames(ms[1..]);
      var s := Frames(ms);
      assert s[|Frame(ms[0])|..] == Frames(ms[1..]);
      assert [ms[0]] + ms[1..] == ms;
    }
  }

  predicate SmallFrames(ms: seq<Message>) { forall m <- ms :: |m.payload| < MAX_BUFFER }

  lemma WalkedStep(s: seq<byte>)
    requires |s| >= HEADER && HEADER <= WordAt(s, 0) <= |s| && SmallFrames(Walked(s))
    ensures var size := WordAt(s, 0);
      Walked(s) == [Message(WordAt(s, 2), s[HEADER..size])] + Walked(s[size..])
      && size - HEADER < MAX_BUFFER && SmallFrames(Walked(s[size..]))
  {
    var size := WordAt(s, 0);
    var m := Message(WordAt(s, 2), s[HEADER..size]);
    var ms := [m] + Walked(s[size..]);
    assert Walked(s) == ms && ms[0] == m;
    assert forall x <- Walked(s[size..]) :: x in ms;
  }

  /** One step of the reader, seen in the clear. */
  lemma ReceivedStep(c: Cipher, s: seq<byte>)
    requires |s| >= HEADER
    ensures var clear := Crypt(c, s);
      var size := WordAt(clear, 0);
      Received(c, s) ==
        if size < HEADER || size - HEADER >= MAX_BUFFER || size > |s| then []
        else [Message(WordAt(clear, 2), clear[HEADER..size])] + Received(AfterFrame(c, size), s[size..])
  {
    var clear := Crypt(c, s);
    CryptCut(c, s, HEADER);
    SameHeader(clear, Crypt(c, s[..HEADER]));
    var size := WordAt(clear, 0);
    if HEADER <= size <= |s| {
      FrameCut(c, s, size);
    }
  }

  lemma {:induction false} ReceiverFollows(c: Cipher, s: seq<byte>)
    requires SmallFrames(Walked(Crypt(c, s)))
    ensures Received(c, s) == Walked(Crypt(c, s))
    decreases |s|
  {
    if |s| >= HEADER {
      ReceivedStep(c, s);
      var clear := Crypt(c, s);
      var size := WordAt(clear, 0);
      if HEADER <= size <= |s| {
        WalkedStep(clear);
        FrameCut(c, s, size);
        ReceiverFollows(AfterFrame(c, size), s[size..]);
      }
    }
  }

  lemma {:induction false} ReceivedIsSmall(c: Cipher, s: seq<byte>)
    ensures SmallFrames(Received(c, s))
    decreases |s|
  {
    hide Crypt;
    if |s| >= HEADER {
      var size := WordAt(Crypt(c, s[..HEADER]), 0);
      if HEADER <= size <= |s| {
        ReceivedIsSmall(AfterFrame(c, size), s[size..]);
      }
    }
  }

  /** Reading header and payload with separate cipher calls yields the walk of the deciphered stream if and only if that
      walk meets no frame too large for the receive buffer. */
  lemma ReceiverWalks(c: Cipher, s: seq<byte>)
    ensures Received(c, s) == Walked(Crypt(c, s)) <==> SmallFrames(Walked(Crypt(c, s)))
  {
    hide Received, Walked, Crypt;
    ReceivedIsSmall(c, s);
    if SmallFrames(Walked(Crypt(c, s))) {
      ReceiverFollows(c, s);
    }
  }

  lemma SameHeader(clear: seq<byte>, header: seq<byte>)
    requires |clear| >= HEADER && clear[..HEADER] == header
    ensures WordAt(clear, 0) == WordAt(header, 0) && WordAt(clear, 2) == WordAt(header, 2)
  {
    assert forall i :: 0 <= i < HEADER ==> clear[i] == header[i];
  }

  lemma FrameCut(c: Cipher, s: seq<byte>, size: nat)
    requires HEADER <= size <= |s|
    ensures Crypt(c, s)[HEADER..size] == Crypt(After(c, HEADER), s[HEADER..size])
    ensures Crypt(c, s)[size..] == Crypt(AfterFrame(c, size), s[size..])
  {
    var clear, c', t := Crypt(c, s), After(c, HEADER), s[HEADER..];
    CryptCut(c, s, HEADER);
    CryptCut(c', t, size - HEADER);
    SeqCut(s, HEADER, size);
    SeqCut(clear, HEADER, size);
  }

  lemma SeqCut(s: seq<byte>, i: nat, j: nat)
    requires i <= j <= |s|
    ensures s[i..][..j - i] == s[i..j] && s[i..][j - i..] == s[j..]
  {
  }

  /** A session written with one cipher state is read back by either reader as exactly the messages. */
  lemma SessionRoundTrip(c: Cipher, ms: seq<Message>)
    requires forall m <- ms :: Sendable(m)
    ensures Walked(Crypt(c, Crypt(c, Frames(ms)))) == ms
    ensures Received(c, Crypt(c, Frames(ms))) == ms
  {
    CryptCancels(c, Frames(ms));
    WalkFrames(ms);
    ReceiverWalks(c, Crypt(c, Frames(ms)));
  }
}
