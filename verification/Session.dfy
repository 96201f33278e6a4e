/** A whole client session: the preamble, the key that server and capture script recover, and the enciphered stream that
    any number of threads write behind it. */
module Session {
  import opened Bytes
  import opened Rc4
  import Rsa
  import opened KeyExchange
  import opened Framing
  import opened Producers

  /** `n` steps of thread `t`. */
  function Turns(t: nat, n: nat): (ts: seq<nat>)
    ensures |ts| == n && forall i :: 0 <= i < n ==> ts[i] == t
  {
    if n == 0 then [] else Turns(t, n - 1) + [t]
  }

  lemma OneMore(s: System, t: nat, n: nat)
    requires Owning(s) && t < |s.threads|
    ensures Run(s, Turns(t, 0)) == s
    ensures var before := Run(s, Turns(t, n));
      Owning(before) && |before.threads| == |s.threads| && Run(s, Turns(t, n + 1)) == Step(before, t)
  {
    hide Step, Owning;
    assert Turns(t, n + 1)[..n] == Turns(t, n);
  }

  /** One thread's seven steps without interruption have the effect of one call that succeeds: the enciphered frame goes on
      the wire, the cipher moves on by its length, and the lock is free again. */
  lemma Uninterrupted(s: System, t: nat)
    requires Owning(s) && s.owner == FREE && t < |s.threads|
    requires s.threads[t].phase == Idle && s.threads[t].todo != [] && Fits(s.threads[t].todo[0])
    ensures var th := s.threads[t];
      var f := Frame(th.todo[0]);
      var r := Run(s, Turns(t, 7));
      && r.wire == s.wire + Crypt(s.cipher, f) && r.cipher == After(s.cipher, |f|) && r.owner == FREE
      && r.order == s.order + [(t, th.todo[0])]
      && r.threads == s.threads[t := Thread(Idle, th.todo[0], th.todo[1..])]
  {
    hide Crypt, After, Le16, Run, Turns, Owning;
    var th := s.threads[t];
    var m, f := th.todo[0], Frame(th.todo[0]);
    OneMore(s, t, 0);
    OneMore(s, t, 1);
    OneMore(s, t, 2);
    OneMore(s, t, 3);
    var s3, s4 := Run(s, Turns(t, 3)), Run(s, Turns(t, 4));
    OwnedBuffer(s);
    assert s3.buffer == Spliced(s.buffer, 0, Le16(HEADER + |m.payload|) + Le16(m.opcode));
    HeaderThenPayload(s.buffer, m);
    assert s4.buffer[..|f|] == f;
    OneMore(s, t, 4);
    var s5 := Run(s, Turns(t, 5));
    assert s5.buffer[..|f|] == Crypt(s.cipher, f);
    OneMore(s, t, 5);
    OneMore(s, t, 6);
  }

  lemma OwnedBuffer(s: System)
    requires Owning(s)
    ensures |s.buffer| == MAX_BUFFER
  {
  }

  lemma HeaderThenPayload(buffer: seq<byte>, m: Message)
    requires |buffer| == MAX_BUFFER && Fits(m)
    ensures Spliced(Spliced(buffer, 0, Le16(HEADER + |m.payload|) + Le16(m.opcode)), HEADER, m.payload)[..|Frame(m)|] == Frame(m)
  {
    hide Le16;
  }

  /** For every key and every schedule: server and script recover exactly the key the client packed, and behind the 74 bytes
      of the preamble the stream, deciphered with it, is walked by either reader to exactly the messages sent so far, in
      lock order, with each thread's own messages in their order. */
  lemma WholeSession(key: seq<byte>, rest: seq<byte>, programs: seq<seq<Message>>, buffer: seq<byte>, schedule: seq<nat>)
    requires |key| == KEY_SIZE && Rsa.KeyPrimes()
    requires |buffer| == MAX_BUFFER && ThreadIds(schedule, |programs|)
    requires forall p <- programs :: forall m <- p :: m.opcode < 0x1_0000
    ensures var sent := ClientKeyPacket(key) + rest;
      && Handshake(sent) == Established(key) && sent[KeyBytes(sent)..] == rest
      && LooksLikeHandshake(sent) && ScriptKey(sent) == key
    ensures var s0 := Initial(programs, Prepared(key), buffer);
      Owning(s0) && var s := Run(s0, schedule);
      var stream := Preamble() + s.wire;
      && Walked(Crypt(Prepared(key), stream[74..])) == Sent(s)
      && Received(Prepared(key), stream[74..]) == Sent(s)
      && forall t :: 0 <= t < |programs| ==> ByThread(s.order, t) <= Accepted(programs[t])
  {
    hide Run, Prepared, Walked, Received, Sent, Owning, Preamble, ClientKeyPacket, ScriptKey;
    var sent := ClientKeyPacket(key) + rest;
    KeyTransport(key, rest);
    ScriptAgrees(sent);
    KeyPacketRead(key, rest);
    EveryInterleaving(programs, Prepared(key), buffer, schedule);
    var wire := Run(Initial(programs, Prepared(key), buffer), schedule).wire;
    assert (Preamble() + wire)[74..] == wire;
  }

  lemma KeyPacketRead(key: seq<byte>, rest: seq<byte>)
    requires |key| == KEY_SIZE && Handshake(ClientKeyPacket(key) + rest).Established?
    ensures (ClientKeyPacket(key) + rest)[KeyBytes(ClientKeyPacket(key) + rest)..] == rest
  {
    hide Rsa.Encrypted, Handshake;
    var sent := ClientKeyPacket(key) + rest;
    assert sent[..4] == [0, 0, 0, 64];
    LengthField(64);
  }
}
