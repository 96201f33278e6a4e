/** Why order insensitivity needs a condition on 0x201A arrivals: with one whose drain meets an ordinary packet, two
    orders of the same three datagrams leave the client with different logs. */
module ReassemblerWitness {
  import opened Bytes
  import opened PacketWalk
  import opened Reassembler

  /** One frame of four bytes with opcode 1, forwarded with an empty payload. */
  const FRAME: seq<byte> := [4, 0, 1, 0]

  const SENT: Output := Forward(1, [])

  lemma FrameWalk()
    ensures WalkOf(FRAME, false) == Walk(Passed, [SENT], false, false, false, false)
    ensures WordAt(FRAME, 0) == 4 && |FRAME| == 4
  {
    var w := Walk(Passed, [], false, false, false, false);
    var w1 := Walk(Passed, [SENT], false, false, false, false);
    assert FRAME[4..4] == [];
    assert [] + [SENT] == [SENT];
    assert FrameStep(FRAME, 0, w) == (w1, 4, true);
    assert WalkFrom(FRAME, 4, w1) == w1;
  }

  /** A receiver between packets, waiting at `head`. */
  ghost predicate Waiting(s: State) {
    && s.head >= 0 && s.waits <= 1 && s.splitLen == 0 && s.headerSize == 512
    && s.active && s.sector && !s.hung && !s.shutting
  }

  /** The frame at the head is forwarded, or passed over behind a continuation. */
  lemma HeadProcessed(s: State, continuation: bool, now: int)
    requires Waiting(s) && SlotAt(s.packets, s.head) == Held(FRAME)
    ensures var (r, more) := Process(s, continuation, now);
      && more && Waiting(r) && r.head == s.head + 1 && r.packets == s.packets[s.head := Done]
      && r.log == s.log + (if continuation then [] else [SENT])
  {
    hide WalkOf, WordAt, FirstChunk;
    FrameWalk();
    assert !StartsSplit(FRAME, 512);
  }

  lemma DrainStops(s: State, continuation: bool, now: int)
    requires s.head >= 0 && SlotAt(s.packets, s.head) == Blank
    ensures DrainLoop(s, continuation, now) == (s.(packets := Touched(s.packets, s.head)), true)
  {
    hide Process;
  }

  lemma PruneNothing(m: Slots, h: nat)
    requires h <= KEPT_BEHIND && forall k :: k in m ==> k < 100
    ensures Pruned(m, h) == m
  {
    if m != map[] {
      assert Least(m.Keys) in m;
    }
  }

  /** The drain of a single held head. */
  lemma DrainsOne(s: State, continuation: bool, now: int)
    requires Waiting(s) && s.head < 50 && SlotAt(s.packets, s.head) == Held(FRAME)
    requires SlotAt(s.packets, s.head + 1) == Blank && forall k :: k in s.packets ==> k < 99
    ensures var r := Drained(s, continuation, now);
      && Waiting(r) && r.head == s.head + 1 && r.packets == Touched(s.packets[s.head := Done], s.head + 1)
      && r.log == s.log + (if continuation then [] else [SENT])
  {
    hide Process, DrainLoop, Pruned;
    HeadProcessed(s, continuation, now);
    DrainLoopStep(s, continuation, now);
    var s1 := Process(s, continuation, now).0;
    DrainStops(s1, continuation, now);
    PruneNothing(Touched(s1.packets, s1.head), s1.head);
  }

  /** The drain of two held slots. */
  lemma DrainsTwo(s: State, continuation: bool, now: int)
    requires Waiting(s) && s.head < 40 && SlotAt(s.packets, s.head) == SlotAt(s.packets, s.head + 1) == Held(FRAME)
    requires SlotAt(s.packets, s.head + 2) == Blank && forall k :: k in s.packets ==> k < 99
    ensures Drained(s, continuation, now).log == s.log + (if continuation then [] else [SENT, SENT])
  {
    hide Process, DrainLoop, Pruned;
    HeadProcessed(s, continuation, now);
    DrainLoopStep(s, continuation, now);
    var s1 := Process(s, continuation, now).0;
    assert Drained(s, continuation, now) == Drained(s1, continuation, now);
    DrainsOne(s1, continuation, now);
  }

  lemma EarlyAsks(s: State, payload: seq<byte>, now: int)
    requires Waiting(s) && s.waits == 0 && s.head < 40 && s.head !in s.packets && s.head + 2 !in s.packets
    ensures var r := Arrived(s, s.head + 1, payload, false, now);
      && Waiting(r) && r.head == s.head && r.log == s.log
      && r.packets == s.packets[s.head + 1 := Held(payload)][s.head := ReRequested]
  {
    hide Drained;
  }

  /** The head is missing. If the ordinary packet behind it arrives first, it is drained behind the 0x201A arrival and
      never forwarded; in the other order it is. */
  lemma OrderMattersBehindContinuation(s: State, now: int)
    requires Waiting(s) && s.waits == 0 && s.head == 1 && s.packets == map[0 := Done]
    ensures var ordinary, continued := Arrive(2, FRAME, false, now), Arrive(1, FRAME, true, now);
      && Step(Step(s, ordinary), continued).log == s.log
      && Step(Step(s, continued), ordinary).log == s.log + [SENT]
  {
    hide Drained, Early;
    EarlyAsks(s, FRAME, now);
    var s1 := Arrived(s, 2, FRAME, false, now);
    var s2 := s1.(packets := s1.packets[1 := Held(FRAME)]);
    DrainsTwo(s2, true, now);
    assert Step(s1, Arrive(1, FRAME, true, now)) == Drained(s2, true, now);
    var t1 := s.(packets := s.packets[1 := Held(FRAME)]);
    DrainsOne(t1, true, now);
    var t2 := Drained(t1, true, now);
    assert Step(s, Arrive(1, FRAME, true, now)) == t2;
    var t3 := t2.(packets := t2.packets[2 := Held(FRAME)]);
    DrainsOne(t3, false, now);
    assert Step(t2, Arrive(2, FRAME, false, now)) == Drained(t3, false, now);
  }
}
