/** Requests for a failed reassembly. Sequence 0 resets the stream but not the split accumulator, so a split begun
    before the reset can be completed behind it, and then the rollback goes forward instead of back. */
module ReassemblerStale {
  import opened Bytes
  import opened PacketWalk
  import opened Reassembler
  import opened ReassemblerSafety
  import opened ReassemblerSplit

  /** The datagram at the head completes the split in flight, and the walk of the whole is refused. */
  ghost predicate CompletesInVain(s: State) {
    && s.head >= 0 && HeadHeld(s) && s.splitLen != 0
    && var payload := s.packets[Key(s.head)].payload;
       && payload != [] && s.splitLen <= |payload|
       && WalkHere(s, s.splitBuf + payload).ending == Refused && !WalkHere(s, s.splitBuf + payload).handoff
  }

  /** A rollback re-requests everything from the split's start to the head. The request is well formed exactly if
      the split did not begin beyond the head. */
  lemma RollbackRequest(s: State, now: int)
    requires 0 <= s.head < 0x7FFF_FFFF && 0 <= s.splitStart < 0x8000_0000
    ensures var r := RolledBack(s, now);
      r.nacks == s.nacks + [Nack(s.splitStart, s.head - s.splitStart + 1)]
      && (NackSafe(r, r.nacks[|s.nacks|]) <==> s.splitStart <= s.head)
  {
    hide AsInt32;
    FitsInt32(s.splitStart);
    FitsInt32(s.head - s.splitStart + 1);
  }

  lemma VainPass(s: State, continuation: bool, now: int)
    requires CompletesInVain(s)
    ensures var (r, more) := Process(s, continuation, now);
      && !more && r.clean == s.clean && r.head == s.splitStart
      && r.nacks == s.nacks + [Nack(AsInt32(s.splitStart), AsInt32(s.head - s.splitStart + 1))]
      && (s.head < 0x7FFF_FFFF && 0 <= s.splitStart < 0x8000_0000 ==>
            (NackSafe(r, r.nacks[|s.nacks|]) <==> s.splitStart <= s.head))
  {
    hide WalkHere, Walked, AsInt32, Marked, NackSafe;
    var p := s.(splitBuf := s.splitBuf + s.packets[Key(s.head)].payload,
                splitLen := s.splitLen - |s.packets[Key(s.head)].payload|);
    SameWalk(s, p, p.splitBuf);
    WalkMoves(p.(splitLen := 0), WalkHere(p, p.splitBuf));
    WalkedFails(p.(splitLen := 0), WalkHere(p, p.splitBuf));
    var q := Walked(p.(splitLen := 0), WalkHere(p, p.splitBuf)).0;
    assert Process(s, continuation, now) == (RolledBack(q, now), false);
    if s.head < 0x7FFF_FFFF && 0 <= s.splitStart < 0x8000_0000 {
      RollbackRequest(q, now);
    }
  }

  /** No other pass sends a request. The head moves on, unless a hand-off has emptied the map, and a split in flight
      afterwards was so before or starts at the head. */
  lemma OtherPass(s: State, continuation: bool, now: int)
    requires HeadHeld(s) && !CompletesInVain(s)
    ensures var (r, more) := Process(s, continuation, now);
      && r.nacks == s.nacks && (more ==> r.head >= s.head || !HeadHeld(r))
      && (more && r.splitLen != 0 && HeadHeld(r) ==>
            if s.splitLen != 0 then r.splitStart == s.splitStart else r.splitStart == s.head < r.head)
  {
    hide Judged, CompletesInVain;
    OtherDecision(s, continuation, now);
    var (s1, v) := Judged(s, continuation, now);
    if v != Return {
      FinishedMoves(s, s1, v == Pass);
    }
  }

  /** The slots as they were, or emptied by a hand-off. */
  ghost predicate KeptOrEmptied(s: State, s1: State) {
    if s1.head == s.head then s1.packets == s.packets || s1.packets == map[] else s1.head == -1 && s1.packets == map[]
  }

  lemma FinishedMoves(s: State, s1: State, pass: bool)
    requires KeptOrEmptied(s, s1)
    ensures var r := Finished(s1, pass);
      && r.nacks == s1.nacks && r.splitLen == s1.splitLen && r.splitStart == s1.splitStart
      && (r.head >= s.head || !HeadHeld(r)) && (pass && HeadHeld(r) ==> r.head == s.head + 1)
  {
  }

  lemma WalkMoves(s: State, w: Walk)
    ensures var s1 := Walked(s, w).0;
      s1.nacks == s.nacks && s1.splitLen == s.splitLen && s1.splitStart == s.splitStart && KeptOrEmptied(s, s1)
      && (w.handoff ==> s1.head < 0) && (!w.handoff ==> s1.head == s.head && s1.clean == s.clean)
  {
  }

  /** What is decided when no split is completed in vain. */
  ghost predicate Decides(s: State, s1: State, v: Verdict) {
    && s1.nacks == s.nacks && (v != Return ==> KeptOrEmptied(s, s1))
    && (v != Return && s1.splitLen != 0 ==>
          if s.splitLen != 0 then s1.splitStart == s.splitStart else s1.splitStart == s.head && v == Pass)
  }

  lemma OtherDecision(s: State, continuation: bool, now: int)
    requires HeadHeld(s) && !CompletesInVain(s)
    ensures var (s1, v) := Judged(s, continuation, now); Decides(s, s1, v)
  {
    hide Opening, Continuing;
    var payload := s.packets[Key(s.head)].payload;
    if s.splitLen == 0 {
      OpeningDecides(s, payload, continuation);
    } else if payload != [] {
      ContinuingDecides(s, payload, now);
    }
  }

  lemma OpeningDecides(s: State, payload: seq<byte>, continuation: bool)
    requires s.splitLen == 0
    ensures var (s1, v) := Opening(s, payload, continuation); Decides(s, s1, v)
  {
    hide WalkHere, FirstChunk, StartsSplit, Walked, WordAt;
    WalkMoves(s, WalkHere(s, payload));
  }

  lemma ContinuingDecides(s: State, payload: seq<byte>, now: int)
    requires s.splitLen != 0
    requires s.splitLen <= |payload| ==>
      var w := WalkHere(s, s.splitBuf + payload); s.head < 0 || w.ending != Refused || w.handoff
    ensures var (s1, v) := Continuing(s, payload, now); Decides(s, s1, v)
  {
    hide WalkHere, Completed;
    var p := s.(splitBuf := s.splitBuf + payload, splitLen := s.splitLen - |payload|);
    if p.splitLen <= 0 {
      SameWalk(s, p, p.splitBuf);
      CompletedWell(p, now);
    }
  }

  lemma CompletedWell(s: State, now: int)
    requires s.head < 0 || WalkHere(s, s.splitBuf).ending != Refused || WalkHere(s, s.splitBuf).handoff
    ensures var (s1, v) := Completed(s, now); s1.nacks == s.nacks && (v != Return ==> KeptOrEmptied(s, s1) && s1.splitLen == 0)
  {
    hide WalkHere, Walked, Marked;
    WalkMoves(s.(splitLen := 0), WalkHere(s, s.splitBuf));
    WalkedFails(s.(splitLen := 0), WalkHere(s, s.splitBuf));
  }

  lemma WalkedFails(s: State, w: Walk)
    ensures Walked(s, w).1 == Fail <==> w.ending == Refused
  {
  }

  /** The state in which the drain makes its last pass, or finds nothing more to process. */
  ghost function LastPass(s: State, continuation: bool, now: int): State
    decreases HeldKeys(s.packets)
  {
    var s0 := s.(packets := Touched(s.packets, Key(s.head)));
    assert HeldKeys(s0.packets) == HeldKeys(s.packets);
    if HeadHeld(s0) && Process(s0, continuation, now).1 then
      ProcessReleases(s0, continuation, now);
      LastPass(Process(s0, continuation, now).0, continuation, now)
    else s0
  }

  lemma LastPassStep(s: State, continuation: bool, now: int)
    ensures var s0 := s.(packets := Touched(s.packets, Key(s.head)));
      && HeldKeys(s0.packets) == HeldKeys(s.packets)
      && LastPass(s, continuation, now) ==
           (if HeadHeld(s0) && Process(s0, continuation, now).1
            then LastPass(Process(s0, continuation, now).0, continuation, now) else s0)
      && DrainLoop(s, continuation, now) ==
           (if !HeadHeld(s0) then (s0, true)
            else if Process(s0, continuation, now).1 then DrainLoop(Process(s0, continuation, now).0, continuation, now)
            else (Process(s0, continuation, now).0, false))
      && (HeadHeld(s0) && Process(s0, continuation, now).1 ==>
            HeldKeys(Process(s0, continuation, now).0.packets) < HeldKeys(s.packets))
  {
    hide Process;
    var s0 := s.(packets := Touched(s.packets, Key(s.head)));
    assert HeldKeys(s0.packets) == HeldKeys(s.packets);
    if HeadHeld(s0) && Process(s0, continuation, now).1 {
      ProcessReleases(s0, continuation, now);
    }
  }

  /** A drain sends a request exactly if its last pass completes a split in vain. The request asks for everything from
      the split's start to the head of that pass, and it is well formed if and only if the split did not begin
      beyond that head. */
  ghost predicate RequestExact(s: State, p: State, r: State) {
    if CompletesInVain(p) then
      && r.nacks == s.nacks + [Nack(AsInt32(p.splitStart), AsInt32(p.head - p.splitStart + 1))]
      && r.head == p.splitStart
      && (p.head < 0x7FFF_FFFF && 0 <= p.splitStart < 0x8000_0000 ==>
            (NackSafe(r, r.nacks[|s.nacks|]) <==> p.splitStart <= p.head))
    else r.nacks == s.nacks
  }

  lemma {:induction false} LoopRequest(s: State, continuation: bool, now: int)
    ensures RequestExact(s, LastPass(s, continuation, now), DrainLoop(s, continuation, now).0)
    ensures CompletesInVain(LastPass(s, continuation, now)) ==> !DrainLoop(s, continuation, now).1
    decreases HeldKeys(s.packets)
  {
    hide Process, LastPass, DrainLoop, CompletesInVain, NackSafe, AsInt32;
    LastPassStep(s, continuation, now);
    var s0 := s.(packets := Touched(s.packets, Key(s.head)));
    NotHeldInVain(s0);
    if HeadHeld(s0) {
      if CompletesInVain(s0) {
        VainPass(s0, continuation, now);
      } else {
        OtherPass(s0, continuation, now);
        if Process(s0, continuation, now).1 {
          LoopRequest(Process(s0, continuation, now).0, continuation, now);
        }
      }
    }
  }

  lemma NotHeldInVain(s: State)
    ensures CompletesInVain(s) ==> HeadHeld(s) && s.splitLen != 0
  {
  }

  lemma DrainRequest(s: State, continuation: bool, now: int)
    ensures RequestExact(s, LastPass(s, continuation, now), Drained(s, continuation, now))
  {
    hide LastPass, DrainLoop, CompletesInVain, AsInt32, Pruned;
    LoopRequest(s, continuation, now);
  }

  lemma {:induction false} LastPassHead(s: State, continuation: bool, now: int)
    ensures var p := LastPass(s, continuation, now); HeadHeld(p) ==> p.head >= s.head
    decreases HeldKeys(s.packets)
  {
    hide Process, LastPass, DrainLoop, CompletesInVain;
    LastPassStep(s, continuation, now);
    var s0 := s.(packets := Touched(s.packets, Key(s.head)));
    if HeadHeld(s0) && Process(s0, continuation, now).1 {
      if CompletesInVain(s0) {
        VainPass(s0, continuation, now);
      }
      OtherPass(s0, continuation, now);
      var s1 := Process(s0, continuation, now).0;
      LastPassHead(s1, continuation, now);
      if !HeadHeld(s1) {
        LastPassIdle(s1, continuation, now);
      }
    }
  }

  lemma LastPassIdle(s: State, continuation: bool, now: int)
    requires !HeadHeld(s)
    ensures !HeadHeld(LastPass(s, continuation, now))
  {
    hide Process;
  }

  /** A malformed request stems from a split that was already in flight before the drain, and begins where that one
      did: a split opened by the drain itself is always behind the head. */
  lemma {:induction false} OnlyStale(s: State, continuation: bool, now: int)
    ensures var p := LastPass(s, continuation, now);
      CompletesInVain(p) && p.head < p.splitStart ==> s.splitLen != 0 && s.splitStart == p.splitStart
    decreases HeldKeys(s.packets)
  {
    hide Process, LastPass, DrainLoop, CompletesInVain;
    LastPassStep(s, continuation, now);
    var s0 := s.(packets := Touched(s.packets, Key(s.head)));
    NotHeldInVain(s0);
    if HeadHeld(s0) && Process(s0, continuation, now).1 {
      if CompletesInVain(s0) {
        VainPass(s0, continuation, now);
      }
      OtherPass(s0, continuation, now);
      var s1, p := Process(s0, continuation, now).0, LastPass(s, continuation, now);
      NotHeldInVain(p);
      OnlyStale(s1, continuation, now);
      LastPassHead(s1, continuation, now);
      if !HeadHeld(s1) {
        LastPassIdle(s1, continuation, now);
      }
    }
  }

  /** The exact condition for the request behind an arrival that drains, in every state. A reset is no excuse: what
      counts is where the split in flight began and where it is completed. */
  lemma StaleSplit(s: State, seqNo: int, payload: seq<byte>, continuation: bool, now: int)
    requires s.active && -0x8000_0000 <= seqNo < 0x8000_0000
    requires seqNo == 0 || seqNo <= s.head
    ensures var p, r := LastPass(Stored(s, seqNo, payload), continuation, now), Arrived(s, seqNo, payload, continuation, now);
      && RequestExact(s, p, r)
      && (CompletesInVain(p) && p.head < p.splitStart ==> s.splitLen != 0 && s.splitStart == p.splitStart)
  {
    hide LastPass, CompletesInVain, Drained, AsInt32, NackSafe;
    var d := Stored(s, seqNo, payload);
    DrainRequest(d, continuation, now);
    OnlyStale(d, continuation, now);
    assert Arrived(s, seqNo, payload, continuation, now) == Drained(d, continuation, now);
  }

  // ----- A run that sends such a request -----

  /** A datagram at the head that passes, with nothing stored beyond it. */
  lemma DrainsAlone(d: State, j: State, now: int)
    requires 0 <= d.head < 50 && HeadHeld(d) && forall k :: k in d.packets ==> k <= d.head
    requires Judged(d, false, now) == (j, Pass) && j.packets == d.packets && j.head == d.head
    ensures Drained(d, false, now)
         == j.(waits := 0, head := d.head + 1, packets := d.packets[d.head := Done][d.head + 1 := Blank])
  {
    hide Judged, DrainLoop, Pruned;
    var f := Finished(j, true);
    assert Process(d, false, now) == (f, true);
    DrainLoopStep(d, false, now);
    FreshKept(f.(packets := Touched(f.packets, f.head)));
    DrainStops(f, false, now);
  }

  lemma DrainStops(s: State, continuation: bool, now: int)
    requires s.head >= 0 && s.head !in s.packets
    ensures DrainLoop(s, continuation, now) == (s.(packets := s.packets[s.head := Blank]), true)
  {
    hide Process;
  }

  lemma FreshKept(s: State)
    requires 0 <= s.head <= KEPT_BEHIND && forall k :: k in s.packets ==> k <= s.head
    ensures Pruned(s.packets, s.head) == s.packets
  {
    if s.packets != map[] {
      assert Least(s.packets.Keys) in s.packets;
    }
  }

  const OPENING: seq<byte> := [2, 2]  // length word 514: two more bytes than the fixed size

  lemma Opens(d: State, now: int)
    requires HeadHeld(d) && d.packets[Key(d.head)] == Held(OPENING) && d.splitLen == 0 && d.headerSize == 512
    ensures var (j, v) := Judged(d, false, now);
      && v == Pass && j == d.(splitLen := 2, splitStart := d.head, splitBuf := j.splitBuf)
  {
    hide FirstChunk, WalkHere;
    assert WordAt(OPENING, 0) == 514;
  }

  /** With no connection to the client, datagrams 0 and 1 are blank fill and 2 opens a split. The server starts over,
      and its datagrams 0 and 1 are taken for the rest of that split: the request sent starts at 2 and asks for no
      sequence at all. */
  lemma StaleRun(now: int)
    ensures var s2 := RunOf(Initial(512), [SetActive(true), Arrive(0, [], false, now), Arrive(1, [], false, now),
                                           Arrive(2, OPENING, false, now), Arrive(0, [1], false, now)]);
      var r := Step(s2, Arrive(1, [1], false, now));
      && s2.nacks == [] && !s2.clean && r.head == 2 && r.nacks == [Nack(2, 0)] && !NackSafe(r, Nack(2, 0))
  {
    hide Drained, Judged, Process, RunOf;
    var e0, e1, e2, e3, e4 := SetActive(true), Arrive(0, [], false, now), Arrive(1, [], false, now),
                              Arrive(2, OPENING, false, now), Arrive(0, [1], false, now);
    FiveSteps(Initial(512), e0, e1, e2, e3, e4);
    var s0 := Step(Initial(512), e0);
    var s1 := Fills(s0, 0, now);
    var s2 := Fills(s1, 1, now);
    var d3 := Stored(s2, 2, OPENING);
    Opens(d3, now);
    var j3 := Judged(d3, false, now).0;
    DrainsAlone(d3, j3, now);
    var s3 := Drained(d3, false, now);
    assert Step(s2, e3) == s3;
    var d4 := Stored(s3, 0, [1]);
    Continues(d4, 1, now);
    DrainsAlone(d4, Judged(d4, false, now).0, now);
    var s4 := Drained(d4, false, now);
    assert Step(s3, e4) == s4;
    Ends(s4, now);
  }

  lemma FiveSteps(s: State, e0: Event, e1: Event, e2: Event, e3: Event, e4: Event)
    requires Legal(e0) && Legal(e1) && Legal(e2) && Legal(e3) && Legal(e4)
    ensures RunOf(s, [e0, e1, e2, e3, e4]) == Step(Step(Step(Step(Step(s, e0), e1), e2), e3), e4)
  {
    hide Step, RunOf;
    OneMore(s, [], e0);
    OneMore(s, [e0], e1);
    OneMore(s, [e0, e1], e2);
    OneMore(s, [e0, e1, e2], e3);
    OneMore(s, [e0, e1, e2, e3], e4);
    assert [] + [e0] == [e0] && [e0] + [e1] == [e0, e1] && [e0, e1] + [e2] == [e0, e1, e2];
    assert [e0, e1, e2] + [e3] == [e0, e1, e2, e3] && [e0, e1, e2, e3] + [e4] == [e0, e1, e2, e3, e4];
    RunNone(s);
  }

  lemma OneMore(s: State, es: seq<Event>, e: Event)
    requires Legal(e) && forall i :: 0 <= i < |es| ==> Legal(es[i])
    ensures RunOf(s, es + [e]) == Step(RunOf(s, es), e)
  {
    hide Step;
    assert (es + [e])[..|es|] == es;
  }

  lemma RunNone(s: State)
    ensures RunOf(s, []) == s
  {
  }

  /** Blank fill at the head. */
  lemma Fills(s: State, seqNo: nat, now: int) returns (r: State)
    requires s.active && !s.hung && s.head == seqNo < 50 && (seqNo == 0 ==> s.packets == map[])
    requires forall k :: k in s.packets ==> k <= seqNo
    ensures r == Step(s, Arrive(seqNo, [], false, now))
    ensures var d := Stored(s, seqNo, []);
      r == d.(splitLen := 0, waits := 0, head := seqNo + 1, packets := d.packets[seqNo := Done][seqNo + 1 := Blank])
  {
    hide Drained, Judged;
    var d := Stored(s, seqNo, []);
    BlankPasses(d, now);
    DrainsAlone(d, d.(splitLen := 0), now);
    r := Drained(d, false, now);
  }

  lemma BlankPasses(d: State, now: int)
    requires HeadHeld(d) && d.packets[Key(d.head)] == Held([])
    ensures Judged(d, false, now) == (d.(splitLen := 0), Pass)
  {
  }

  lemma Continues(d: State, n: nat, now: int)
    requires HeadHeld(d) && d.packets[Key(d.head)] == Held([1]) && d.splitLen == n + 1 && n > 0
    ensures Judged(d, false, now) == (d.(splitLen := n, splitBuf := d.splitBuf + [1]), Pass)
  {
  }

  lemma Ends(s: State, now: int)
    requires s.active && !s.hung && s.head == 1 && s.splitLen == 1 && s.splitStart == 2 && !s.sector && s.nacks == []
    ensures var r := Step(s, Arrive(1, [1], false, now));
      r.head == 2 && r.nacks == [Nack(2, 0)] && !NackSafe(r, Nack(2, 0))
  {
    hide Drained, LastPass, DrainLoop, Process, Marked, CompletesInVain;
    var d := Stored(s, 1, [1]);
    EndsInVain(d);
    VainPass(d, false, now);
    LastPassStep(d, false, now);
    assert d.(packets := Touched(d.packets, 1)) == d;
    assert LastPass(d, false, now) == d;
    DrainRequest(d, false, now);
    assert Step(s, Arrive(1, [1], false, now)) == Drained(d, false, now);
    assert AsInt32(2) == 2 && AsInt32(0) == 0;
  }

  lemma EndsInVain(d: State)
    requires d.head >= 0 && HeadHeld(d) && d.packets[Key(d.head)] == Held([1]) && d.splitLen == 1 && !d.sector
    ensures CompletesInVain(d)
  {
  }
}
