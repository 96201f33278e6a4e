/** The flag of a 0x201A arrival applies to everything its drain meets. What this costs the client, and when it costs
    nothing. */
module ReassemblerContinuation {
  import opened Bytes
  import opened PacketWalk
  import opened Reassembler
  import opened ReassemblerSafety
  import opened ReassemblerOrder

  /** A datagram behind which the continuation flag matters: no split in flight, nothing split begun, and
      something to walk. */
  predicate Ordinary(s: State)
    requires HeadHeld(s)
  {
    var payload := s.packets[Key(s.head)].payload;
    payload != [] && s.splitLen == 0 && !StartsSplit(payload, s.headerSize)
  }

  /** The flag of the arrival that triggers a drain applies to every datagram drained: an ordinary packet
      drained behind a 0x201A arrival is passed over. The client misses output exactly when such a packet
      has any. */
  lemma ContinuationLoses(s: State, now: int)
    requires HeadHeld(s)
    ensures Process(s, true, now).0.log == Process(s, false, now).0.log <==>
      !(Ordinary(s) && WalkHere(s, s.packets[Key(s.head)].payload).out != [])
  {
    hide WalkHere, Completed, FirstChunk, WordAt;
    if Ordinary(s) {
      OrdinaryLog(s, WalkHere(s, s.packets[Key(s.head)].payload));
    }
  }

  lemma OrdinaryLog(s: State, w: Walk)
    ensures Walked(s, w).0.log == s.log + w.out
    ensures s.log + w.out == s.log <==> w.out == []
    ensures forall pass :: Finished(Walked(s, w).0, pass).log == s.log + w.out
  {
    assert |s.log + w.out| == |s.log| + |w.out|;
  }

  // ----- Drains it does not harm -----

  /** Some datagram that the drain meets is an ordinary packet. */
  ghost predicate MeetsOrdinary(s: State, now: int)
    decreases HeldKeys(s.packets)
  {
    var s0 := s.(packets := Touched(s.packets, Key(s.head)));
    assert HeldKeys(s0.packets) == HeldKeys(s.packets);
    HeadHeld(s0) &&
    (Ordinary(s0) || (Process(s0, false, now).1 && (ProcessReleases(s0, false, now); MeetsOrdinary(Process(s0, false, now).0, now))))
  }

  lemma SameProcess(s: State, now: int)
    requires HeadHeld(s) && !Ordinary(s)
    ensures Process(s, true, now) == Process(s, false, now)
  {
    hide WalkHere, Continuing, FirstChunk, WordAt;
  }

  lemma {:induction false} SameLoop(s: State, now: int)
    requires !MeetsOrdinary(s, now)
    ensures DrainLoop(s, true, now) == DrainLoop(s, false, now)
    decreases HeldKeys(s.packets)
  {
    hide Process, Ordinary;
    var s0 := s.(packets := Touched(s.packets, Key(s.head)));
    assert HeldKeys(s0.packets) == HeldKeys(s.packets);
    if HeadHeld(s0) {
      SameProcess(s0, now);
      if Process(s0, false, now).1 {
        ProcessReleases(s0, false, now);
        SameLoop(Process(s0, false, now).0, now);
      }
    }
  }

  lemma SameDrained(s: State, now: int)
    requires !MeetsOrdinary(s, now)
    ensures Drained(s, true, now) == Drained(s, false, now)
  {
    hide DrainLoop, Pruned, MeetsOrdinary;
    SameLoop(s, now);
  }

  /** The state from which an arrival drains, if it does. */
  function Draining(s: State, seqNo: int, payload: seq<byte>): State
    requires -0x8000_0000 <= seqNo
  {
    var d := Stored(s, seqNo, payload);
    if seqNo > d.head then d.(waits := d.waits + 1, packets := Touched(d.packets, Key(d.head))) else d
  }

  /** A 0x201A arrival whose drain meets an ordinary packet. */
  ghost predicate Harmful(s: State, e: Event)
    requires Legal(e)
  {
    e.Arrive? && e.continuation && MeetsOrdinary(Draining(s, e.seqNo, e.payload), e.now)
  }

  /** The same event as a 0x2016 datagram. */
  function Plain(e: Event): Event { if e.Arrive? then e.(continuation := false) else e }

  function Plains(es: seq<Event>): (r: seq<Event>)
    ensures |r| == |es| && forall i :: 0 <= i < |es| ==> r[i] == Plain(es[i])
  {
    seq(|es|, i requires 0 <= i < |es| => Plain(es[i]))
  }

  /** An arrival that is not harmful has the effect of the same data in a 0x2016 datagram, in every state. */
  lemma HarmlessStep(s: State, e: Event)
    requires Legal(e) && !Harmful(s, e)
    ensures Step(s, e) == Step(s, Plain(e))
  {
    hide Drained, MeetsOrdinary, Reset, AskedForHead, GivenUp;
    if e.Arrive? && e.continuation {
      SameDrained(Draining(s, e.seqNo, e.payload), e.now);
    }
  }

  ghost predicate HarmlessRun(s: State, es: seq<Event>) {
    && (forall i :: 0 <= i < |es| ==> Legal(es[i]))
    && (forall i :: 0 <= i < |es| ==> !Harmful(RunOf(s, es[..i]), es[i]))
  }

  lemma {:induction false} HarmlessRunPlain(s: State, es: seq<Event>)
    requires HarmlessRun(s, es)
    ensures forall i :: 0 <= i < |es| ==> Legal(es[i])
    ensures RunOf(s, es) == RunOf(s, Plains(es))
    ensures Arrivals(Plains(es)) == Arrivals(es)
  {
    hide Step, Harmful, HarmlessRun;
    if es != [] {
      var n := |es| - 1;
      HarmlessLast(s, es);
      HarmlessRunPlain(s, es[..n]);
      assert Plains(es)[..n] == Plains(es[..n]);
      HarmlessStep(RunOf(s, es[..n]), es[n]);
    }
  }

  lemma HarmlessLast(s: State, es: seq<Event>)
    requires HarmlessRun(s, es) && es != []
    ensures var n := |es| - 1; HarmlessRun(s, es[..n]) && Legal(es[n]) && !Harmful(RunOf(s, es[..n]), es[n])
  {
    hide Step, Harmful, RunOf;
    var n := |es| - 1;
    assert forall i :: 0 <= i < n ==> es[..n][..i] == es[..i] && es[..n][i] == es[i];
  }

  /** Order insensitivity with 0x201A datagrams among the arrivals: as long as none of their drains meets an ordinary
      packet, only split chunks and blank fill, head, log and commits are those of the ideal receiver. */
  lemma HarmlessOrderInsensitive(s: State, stream: seq<seq<byte>>, now: int, es: seq<Event>)
    requires s.splitLen == 0 && s.active && s.sector && !s.hung && !s.shutting
    requires CalmStream(stream, s.headerSize) && 0 < |stream| && Legal(Arrive(0, stream[0], false, now))
    requires QuietRun(Step(s, Arrive(0, stream[0], false, now)), Plains(es), stream, 0)
    requires HarmlessRun(Step(s, Arrive(0, stream[0], false, now)), es)
    ensures var r := RunOf(Step(s, Arrive(0, stream[0], false, now)), es);
      var arrived := {0} + Arrivals(es);
      && 0 <= r.head <= |stream| && r.head !in arrived
      && (forall k :: 0 <= k < r.head ==> k in arrived)
      && r.log == s.log + InOrder(stream, r.head, s.headerSize).log
      && r.commits == InOrder(stream, r.head, s.headerSize).commits
  {
    hide Step, QuietRun, InOrder, Harmful;
    HarmlessRunPlain(Step(s, Arrive(0, stream[0], false, now)), es);
    OrderInsensitive(s, stream, now, Plains(es));
  }
}
