/** From the datagram to the client: a packet of game frames that arrives at the head. */
module ReassemblerArrivals {
  import opened Bytes
  import opened Framing
  import opened PacketWalk
  import opened PacketWalkLaws
  import opened Reassembler

  /** The receiver can walk a packet at its head, and nothing that follows it is there yet. */
  ghost predicate Ready(s: State) {
    && s.active && s.sector && !s.hung && !s.shutting && s.splitLen == 0 && 0 < s.head < 0x7FFF_FFFF
    && !SlotAt(s.packets, s.head + 1).Held?
  }

  /** Game frames in one datagram, whose first length does not announce a split. */
  ghost predicate GamePacket(ms: seq<Message>, headerSize: nat) {
    && ms != [] && (forall m <- ms :: Game(m)) && |Frames(ms)| <= 0x7FFF - 12
    && (|Frame(ms[0])| <= headerSize || |Frame(ms[0])| >= 20000)
  }

  lemma NoSplit(ms: seq<Message>, headerSize: nat)
    requires GamePacket(ms, headerSize)
    ensures !StartsSplit(Frames(ms), headerSize) && Frames(ms) != []
  {
    hide Frame, WordAt, Frames;
    FirstFrame(ms);
    assert Game(ms[0]);
    FrameHeader(ms[0], Frames(ms[1..]));
  }

  /** What the drain makes of the packet at the head. */
  lemma PacketJudged(d: State, ms: seq<Message>, now: int)
    requires GamePacket(ms, d.headerSize) && d.sector && !d.hung && !d.shutting && d.splitLen == 0 && d.head > 0
    requires SlotAt(d.packets, d.head) == Held(Frames(ms))
    ensures var w := Walk(Passed, Forwards(ms), Has(ms, 0x3A), Has(ms, 0x3A) || Has(ms, 0xBA), Has(ms, 0x05), false);
      Process(d, false, now) == (Finished(Reassembler.Walked(d, w).0, true), true)
  {
    hide Frames, Forwards, Has, StartsSplit, FirstChunk, WalkOf, Reassembler.Walked, Finished, GamePacket;
    NoSplit(ms, d.headerSize);
    PacketSize(ms, d.headerSize);
    GameFramesWalked(ms);
    VerdictPasses(d, WalkOf(Frames(ms), false));
  }

  lemma PacketSize(ms: seq<Message>, headerSize: nat)
    requires GamePacket(ms, headerSize)
    ensures (forall m <- ms :: Game(m)) && |Frames(ms)| < 0x8000
  {
  }

  lemma VerdictPasses(s: State, w: Walk)
    requires w.ending == Passed
    ensures Reassembler.Walked(s, w).1 == Pass
  {
  }

  lemma LoopStops(s: State, now: int)
    requires !SlotAt(s.packets, Key(s.head)).Held?
    ensures DrainLoop(s, false, now) == (s.(packets := Touched(s.packets, Key(s.head))), true)
  {
    hide Process;
  }

  lemma KeepsAll(m: Slots)
    ensures Pruned(m, 0) == m
  {
  }

  /** The client gets exactly the frames, in order; the packet is one commit and asks for nothing. A start completes the
      login and forgets the losses, a log-off ends the connection. A hand-off ends it too, and leaves a receiver at
      sequence 0 that has forgotten every slot. */
  lemma GamePacketArrives(s: State, ms: seq<Message>, now: int)
    requires Ready(s) && GamePacket(ms, s.headerSize)
    ensures var r := Step(s, Arrive(s.head, Frames(ms), false, now));
      && r.log == s.log + Forwards(ms) && r.commits == s.commits + [s.head] && r.nacks == s.nacks
      && r.active == !(Has(ms, 0x3A) || Has(ms, 0xBA)) && r.loginComplete == (s.loginComplete || Has(ms, 0x05))
      && r.drops == (if Has(ms, 0x05) then 0 else s.drops) && r.waits == 0
      && if Has(ms, 0x3A) then r.head == 0 && !r.clean && r.packets == map[0 := Blank, 0xFFFF_FFFF_FFFF_FFFF := Done]
         else r.head == s.head + 1 && r.clean == s.clean
  {
    hide Frames, Forwards, Has, DrainLoop, Process, GamePacket, Pruned;
    PacketSmall(ms, s.headerSize);
    var d := s.(packets := s.packets[s.head := Held(Frames(ms))]);
    PacketJudged(d, ms, now);
    DrainLoopStep(d, false, now);
    var q := Process(d, false, now).0;
    LoopStops(q, now);
    KeepsAll(Touched(q.packets, Key(q.head)));
    assert Step(s, Arrive(s.head, Frames(ms), false, now)) == Drained(d, false, now);
  }

  lemma PacketSmall(ms: seq<Message>, headerSize: nat)
    requires GamePacket(ms, headerSize)
    ensures |Frames(ms)| <= 0x7FFF - 12
  {
  }
}
