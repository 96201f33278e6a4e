/** What every step of an epoch keeps: no processed slot at or above the head, committed sequences strictly
    increasing across rollbacks, and re-requests that never ask for data already held. */
module ReassemblerSafety {
  import opened Bytes
  import opened PacketWalk
  import opened Reassembler

  ghost predicate Increasing(xs: seq<int>) { forall i, j :: 0 <= i < j < |xs| ==> xs[i] < xs[j] }

  /** Nothing from here on has been committed: the start of the split in flight, or the head. */
  function Frontier(s: State): int { if s.splitLen > 0 then s.splitStart else s.head }

  ghost predicate NoDoneAhead(m: Slots, head: int) { forall k :: k in m && m[k] == Done ==> k < head }

  ghost predicate Committed(commits: seq<int>, bound: int) {
    Increasing(commits) && forall c <- commits :: c < bound
  }

  ghost predicate CleanInv(s: State) {
    && 0 <= s.head
    && NoDoneAhead(s.packets, s.head)
    && (s.splitLen > 0 ==> 0 <= s.splitStart < s.head)
    && Committed(s.commits, Frontier(s))
  }

  ghost predicate Inv(s: State) { 0 <= s.splitLen && (s.clean ==> CleanInv(s)) }

  // ----- One pass of the drain -----

  /** What the drain knows between the decision on a datagram and the update of its slot. */
  ghost predicate Decided(s: State, s1: State, v: Verdict) {
    && 0 <= s1.splitLen
    && (s1.clean ==>
         && s.clean && s1.head == s.head && s1.packets == s.packets
         && (s1.splitLen > 0 ==> v == Pass && 0 <= s1.splitStart <= s1.head)
         && Committed(s1.commits, if s1.splitLen > 0 then s1.splitStart else if v == Pass then s1.head + 1 else s1.head))
  }

  lemma CommitAppended(commits: seq<int>, head: int)
    requires Committed(commits, head)
    ensures Committed(commits + [head], head + 1)
  {
    forall i, j | 0 <= i < j < |commits + [head]|
      ensures (commits + [head])[i] < (commits + [head])[j]
    {
      assert commits[i] in commits;
    }
  }

  lemma WalkedDecided(s: State, w: Walk)
    requires s.splitLen == 0 && (s.clean ==> Committed(s.commits, s.head))
    ensures Decided(s, Walked(s, w).0, Walked(s, w).1)
    ensures Walked(s, w).0.splitLen == 0 && Walked(s, w).0.splitStart == s.splitStart
  {
    if s.clean {
      CommitAppended(s.commits, s.head);
    }
  }

  lemma RolledBackInv(s: State, now: int)
    requires s.splitLen == 0
    requires s.clean ==> 0 <= s.splitStart < s.head && NoDoneAhead(s.packets, s.head)
                         && Committed(s.commits, s.splitStart)
    ensures Inv(RolledBack(s, now))
  {
  }

  lemma OpeningDecided(s: State, payload: seq<byte>, continuation: bool)
    requires Inv(s) && s.splitLen == 0
    ensures var (s1, v) := Opening(s, payload, continuation); Decided(s, s1, v) && (v == Return ==> Inv(s1))
  {
    hide WalkHere, FirstChunk, WordAt, Walked;
    WalkedDecided(s, WalkHere(s, payload));
    HungInv(s, WalkHere(s, payload));
  }

  /** A walk that hangs leaves the slots as they are or ends the epoch. */
  lemma HungInv(s: State, w: Walk)
    requires 0 <= s.splitLen && (s.clean ==> CleanInv(s))
    ensures Walked(s, w).1 == Return ==> Inv(Walked(s, w).0)
  {
  }

  lemma CompletedDecided(s: State, now: int)
    requires s.splitLen <= 0
    requires s.clean ==> 0 <= s.splitStart < s.head && NoDoneAhead(s.packets, s.head)
                         && Committed(s.commits, s.splitStart)
    ensures var (s1, v) := Completed(s, now);
      if v == Return then Inv(s1) else Decided(s, s1, v)
  {
    hide WalkHere, Walked, RolledBack;
    var s0, w := s.(splitLen := 0), WalkHere(s, s.splitBuf);
    WalkedDecided(s0, w);
    HungInv(s0, w);
    FailedWalk(s0, w);
    if Walked(s0, w).1 == Fail {
      RolledBackInv(Walked(s0, w).0, now);
    }
  }

  lemma FailedWalk(s: State, w: Walk)
    ensures Walked(s, w).1 == Fail ==> Walked(s, w).0.commits == s.commits
  {
  }

  lemma JudgedDecided(s: State, continuation: bool, now: int)
    requires Inv(s) && HeadHeld(s)
    ensures var (s1, v) := Judged(s, continuation, now);
      if v == Return then Inv(s1) else Decided(s, s1, v)
  {
    hide Opening, Completed;
    var payload := s.packets[Key(s.head)].payload;
    if payload == [] {
    } else if s.splitLen == 0 {
      OpeningDecided(s, payload, continuation);
    } else {
      var s1 := s.(splitBuf := s.splitBuf + payload, splitLen := s.splitLen - |payload|);
      if s1.splitLen <= 0 {
        CompletedDecided(s1, now);
      }
    }
  }

  lemma FinishedInv(s: State, s1: State, v: Verdict)
    requires Inv(s) && HeadHeld(s) && v != Return && Decided(s, s1, v)
    ensures Inv(Finished(s1, v == Pass))
  {
  }

  lemma ProcessInv(s: State, continuation: bool, now: int)
    requires Inv(s) && HeadHeld(s)
    ensures Inv(Process(s, continuation, now).0)
  {
    hide Judged;
    JudgedDecided(s, continuation, now);
    var (s1, v) := Judged(s, continuation, now);
    if v != Return {
      FinishedInv(s, s1, v);
    }
  }

  // ----- Whole steps -----

  lemma TouchedInv(s: State, k: nat)
    requires Inv(s)
    ensures Inv(s.(packets := Touched(s.packets, k)))
  {
  }

  lemma {:induction false} DrainLoopInv(s: State, continuation: bool, now: int)
    requires Inv(s)
    ensures Inv(DrainLoop(s, continuation, now).0)
    decreases HeldKeys(s.packets)
  {
    hide Process, Inv;
    var s0 := s.(packets := Touched(s.packets, Key(s.head)));
    TouchedInv(s, Key(s.head));
    assert HeldKeys(s0.packets) == HeldKeys(s.packets);
    if HeadHeld(s0) {
      ProcessInv(s0, continuation, now);
      if Process(s0, continuation, now).1 {
        ProcessReleases(s0, continuation, now);
        DrainLoopInv(Process(s0, continuation, now).0, continuation, now);
      }
    }
  }

  lemma DrainedInv(s: State, continuation: bool, now: int)
    requires Inv(s)
    ensures Inv(Drained(s, continuation, now))
  {
    hide DrainLoop, Pruned;
    DrainLoopInv(s, continuation, now);
  }

  lemma ResetInv(s: State)
    requires Inv(s)
    ensures Inv(Reset(s))
  {
  }

  lemma EarlyInv(s: State, continuation: bool, now: int)
    requires Inv(s)
    ensures Inv(Early(s, continuation, now))
  {
    hide Drained, Inv;
    var s1 := s.(waits := s.waits + 1, packets := Touched(s.packets, Key(s.head)));
    WaitInv(s, Touched(s.packets, Key(s.head)));
    WaitInv(s, s1.packets[Key(s.head) := ReRequested]);
    DrainedInv(s1, continuation, now);
    var r := Early(s, continuation, now);
    if s1.packets[Key(s.head)] in {Blank, ReRequested} {
      if s1.waits > MAX_WAITS {
        SkipInv(s.(packets := s1.packets));
      } else if s1.packets[Key(s.head)] == Blank {
        CountersInv(s.(waits := s.waits + 1, packets := s1.packets[Key(s.head) := ReRequested]), r);
      }
    }
  }

  /** Creating or marking the head slot, and counting a wait, keep the invariant. */
  lemma WaitInv(s: State, m: Slots)
    requires Inv(s) && (m == Touched(s.packets, Key(s.head)) || m == Touched(s.packets, Key(s.head))[Key(s.head) := ReRequested])
    ensures Inv(s.(packets := m)) && Inv(s.(waits := s.waits + 1, packets := m))
  {
  }

  lemma CountersInv(s: State, r: State)
    requires Inv(s) && r == s.(drops := r.drops, packetTimer := r.packetTimer, nacks := r.nacks, resendAt := r.resendAt)
    ensures Inv(r)
  {
  }

  lemma ArrivedInv(s: State, seqNo: int, payload: seq<byte>, continuation: bool, now: int)
    requires Inv(s) && -0x8000_0000 <= seqNo < 0x8000_0000
    ensures Inv(Arrived(s, seqNo, payload, continuation, now))
  {
    hide Drained, Early, Reset;
    ResetInv(s);
    var s1 := if seqNo == 0 then Reset(s) else s;
    var s2 := s1.(packets := s1.packets[Key(seqNo) := Held(payload)]);
    assert Inv(s2);
    DrainedInv(s2, continuation, now);
    EarlyInv(s2, continuation, now);
  }

  lemma RetriedInv(s: State, now: int)
    requires Inv(s)
    ensures Inv(Retried(s, now))
  {
    hide Drained, HoleSize;
    var s1 := GivenUp(s.(waits := s.waits + 1));
    assert Inv(s1) by { SkipInv(s); }
    DrainedInv(s1, false, now);
  }

  lemma PumpedInv(s: State, now: int)
    requires Inv(s)
    ensures Inv(Pumped(s, now))
  {
    hide Drained, Retried, Inv;
    var s1 := s.(packets := Touched(s.packets, Key(s.head)));
    TouchedInv(s, Key(s.head));
    DrainedInv(s1, false, now);
    RetriedInv(s1, now);
  }

  /** Every event keeps the invariant, from every state that has it. */
  lemma StepInv(s: State, e: Event)
    requires Inv(s) && Legal(e)
    ensures Inv(Step(s, e))
  {
    hide Arrived, Pumped;
    match e {
      case Arrive(seqNo, payload, continuation, now) => ArrivedInv(s, seqNo, payload, continuation, now);
      case Pump(now) => PumpedInv(s, now);
      case _ =>
    }
  }

  // ----- Epochs that have ended -----

  lemma ProcessStaysUnclean(s: State, continuation: bool, now: int)
    requires HeadHeld(s) && !s.clean
    ensures !Process(s, continuation, now).0.clean
  {
    hide Judged;
    JudgedStaysUnclean(s, continuation, now);
  }

  lemma JudgedStaysUnclean(s: State, continuation: bool, now: int)
    requires HeadHeld(s) && !s.clean
    ensures !Judged(s, continuation, now).0.clean
  {
    hide WalkHere, FirstChunk, WordAt, StartsSplit, Walked, RolledBack;
    var payload := s.packets[Key(s.head)].payload;
    WalkedClean(s, WalkHere(s, payload));
    var s1 := s.(splitBuf := s.splitBuf + payload, splitLen := s.splitLen - |payload|);
    WalkedClean(s1.(splitLen := 0), WalkHere(s1, s1.splitBuf));
    RolledBackClean(Walked(s1.(splitLen := 0), WalkHere(s1, s1.splitBuf)).0, now);
  }

  lemma RolledBackClean(s: State, now: int)
    ensures RolledBack(s, now).clean == s.clean
  {
  }

  lemma CleanHead(s: State)
    requires Inv(s) && s.clean
    ensures 0 <= s.head
  {
  }

  // ----- Keys stay in range -----

  /** No datagram held beyond `b`, and no key beyond it but that of a head that has got there. */
  ghost predicate Bounded(s: State, b: nat) {
    && (forall k :: k in s.packets ==> k <= b || (k == b + 1 == s.head && !s.packets[k].Held?)) && s.head <= b + 1
  }

  lemma ProcessBounded(s: State, continuation: bool, now: int, b: nat)
    requires Inv(s) && s.clean && HeadHeld(s) && Bounded(s, b)
    ensures var r := Process(s, continuation, now).0; r.clean ==> Bounded(r, b)
  {
    hide Judged, Bounded, Inv;
    CleanHead(s);
    HeldBelow(s, b);
    JudgedBounded(s, continuation, now, b);
    var (s1, v) := Judged(s, continuation, now);
    if s1.clean && v != Return {
      FinishedBounded(s, s1, v == Pass, b);
    }
  }

  lemma HeldBelow(s: State, b: nat)
    requires Bounded(s, b) && HeadHeld(s) && 0 <= s.head
    ensures s.head <= b
  {
  }

  lemma FinishedBounded(s: State, s1: State, pass: bool, b: nat)
    requires Bounded(s, b) && 0 <= s.head <= b && s1.packets == s.packets && s1.head == s.head
    ensures Bounded(Finished(s1, pass), b)
  {
  }

  lemma JudgedBounded(s: State, continuation: bool, now: int, b: nat)
    requires Inv(s) && s.clean && HeadHeld(s) && Bounded(s, b) && 0 <= s.head <= b
    ensures var (s1, v) := Judged(s, continuation, now);
      s1.clean ==> Bounded(s1, b) && (v != Return ==> s1.packets == s.packets && s1.head == s.head)
  {
    hide Opening, Completed;
    var payload := s.packets[Key(s.head)].payload;
    OpeningBounded(s, payload, continuation);
    if s.splitLen > 0 {
      CompletedBounded(s.(splitBuf := s.splitBuf + payload, splitLen := s.splitLen - |payload|), now, b);
    }
  }

  lemma OpeningBounded(s: State, payload: seq<byte>, continuation: bool)
    ensures var (s1, v) := Opening(s, payload, continuation);
      s1.clean ==> s1.packets == s.packets && s1.head == s.head
  {
    hide WalkHere, FirstChunk, WordAt;
  }

  lemma CompletedBounded(s: State, now: int, b: nat)
    requires s.clean && 0 <= s.splitStart <= s.head <= b && Bounded(s, b)
    ensures var (s1, v) := Completed(s, now);
      s1.clean ==> Bounded(s1, b) && (v != Return ==> s1.packets == s.packets && s1.head == s.head)
  {
    hide WalkHere, Walked, RolledBack;
    var s0, w := s.(splitLen := 0), WalkHere(s, s.splitBuf);
    WalkedClean(s0, w);
    RolledBackClean(Walked(s0, w).0, now);
    if Walked(s0, w).0.clean {
      assert Bounded(Walked(s0, w).0, b);
      RolledBackBounded(Walked(s0, w).0, now, b);
    }
  }

  lemma WalkedClean(s: State, w: Walk)
    ensures var s1 := Walked(s, w).0;
      s1.splitStart == s.splitStart && (s1.clean ==> s.clean && s1.packets == s.packets && s1.head == s.head)
  {
  }

  lemma RolledBackBounded(s: State, now: int, b: nat)
    requires 0 <= s.splitStart
    ensures Bounded(s, b) && s.splitStart <= s.head <= b ==> Bounded(RolledBack(s, now), b)
  {
    if Bounded(s, b) && s.splitStart <= s.head <= b {
      var r := RolledBack(s, now);
      assert forall k :: k in r.packets ==> k in s.packets || k <= s.head;
    }
  }

  lemma {:induction false} DrainLoopBounded(s: State, continuation: bool, now: int, b: nat)
    requires Inv(s) && s.clean && Bounded(s, b)
    ensures var r := DrainLoop(s, continuation, now).0; r.clean ==> Bounded(r, b)
    decreases HeldKeys(s.packets)
  {
    hide Process, Inv;
    var s0 := s.(packets := Touched(s.packets, Key(s.head)));
    TouchedInv(s, Key(s.head));
    CleanHead(s);
    assert HeldKeys(s0.packets) == HeldKeys(s.packets);
    if HeadHeld(s0) {
      var (s1, more) := Process(s0, continuation, now);
      ProcessInv(s0, continuation, now);
      ProcessBounded(s0, continuation, now, b);
      if more {
        ProcessReleases(s0, continuation, now);
        if s1.clean {
          DrainLoopBounded(s1, continuation, now, b);
        } else {
          DrainLoopStaysUnclean(s1, continuation, now);
        }
      }
    }
  }

  lemma {:induction false} DrainLoopStaysUnclean(s: State, continuation: bool, now: int)
    requires !s.clean
    ensures !DrainLoop(s, continuation, now).0.clean
    decreases HeldKeys(s.packets)
  {
    hide Process;
    var s0 := s.(packets := Touched(s.packets, Key(s.head)));
    assert HeldKeys(s0.packets) == HeldKeys(s.packets);
    if HeadHeld(s0) {
      ProcessStaysUnclean(s0, continuation, now);
      if Process(s0, continuation, now).1 {
        ProcessReleases(s0, continuation, now);
        DrainLoopStaysUnclean(Process(s0, continuation, now).0, continuation, now);
      }
    }
  }

  lemma DrainedBounded(s: State, continuation: bool, now: int, b: nat)
    requires Inv(s) && s.clean && Bounded(s, b)
    ensures var r := Drained(s, continuation, now); r.clean ==> Bounded(r, b)
  {
    hide DrainLoop, Pruned;
    DrainLoopBounded(s, continuation, now, b);
  }

  lemma PumpedBounded(s: State, now: int, b: nat)
    requires Inv(s) && s.clean && Bounded(s, b)
    ensures var r := Pumped(s, now); r.clean ==> Bounded(r, b)
  {
    hide Drained, HoleSize, Inv;
    CleanHead(s);
    var s1 := s.(packets := Touched(s.packets, Key(s.head)));
    TouchedInv(s, Key(s.head));
    DrainedBounded(s1, false, now, b);
    if s.packets != map[] && Outstanding(s) {
      var s2 := GivenUp(s1.(waits := s1.waits + 1));
      SkipInv(s1);
      assert s2.head <= Greatest(s.packets.Keys);
      DrainedBounded(s2, false, now, b);
    }
  }

  lemma EarlyBounded(s: State, continuation: bool, now: int, b: nat)
    requires Inv(s) && s.clean && Bounded(s, b) && s.head < b
    ensures var r := Early(s, continuation, now); r.clean ==> Bounded(r, b)
  {
    hide Drained, Inv;
    CleanHead(s);
    var s1 := s.(waits := s.waits + 1, packets := Touched(s.packets, Key(s.head)));
    WaitInv(s, s1.packets);
    DrainedBounded(s1, continuation, now, b);
  }

  lemma ArrivedBounded(s: State, seqNo: int, payload: seq<byte>, continuation: bool, now: int, b: nat)
    requires Inv(s) && (s.clean ==> Bounded(s, b)) && 0 <= seqNo <= b && seqNo < 0x8000_0000
    ensures var r := Arrived(s, seqNo, payload, continuation, now); r.clean ==> Bounded(r, b)
  {
    hide Drained, Early, Reset;
    ResetInv(s);
    ResetClean(s);
    var s1 := if seqNo == 0 then Reset(s) else s;
    var s2 := s1.(packets := s1.packets[Key(seqNo) := Held(payload)]);
    assert Inv(s2);
    if s1.clean {
      assert Bounded(s2, b);
      DrainedBounded(s2, continuation, now, b);
      if seqNo > s2.head {
        EarlyBounded(s2, continuation, now, b);
      }
    } else {
      DrainedStaysUnclean(s2, continuation, now);
      EarlyStaysUnclean(s2, continuation, now);
    }
  }

  lemma ResetClean(s: State)
    ensures Reset(s).packets == map[] && Reset(s).head == 0
  {
  }

  lemma DrainedStaysUnclean(s: State, continuation: bool, now: int)
    requires !s.clean
    ensures !Drained(s, continuation, now).clean
  {
    hide DrainLoop, Pruned;
    DrainLoopStaysUnclean(s, continuation, now);
  }

  lemma EarlyStaysUnclean(s: State, continuation: bool, now: int)
    requires !s.clean
    ensures !Early(s, continuation, now).clean
  {
    hide Drained;
    DrainedStaysUnclean(s.(waits := s.waits + 1, packets := Touched(s.packets, Key(s.head))), continuation, now);
  }

  lemma PumpedStaysUnclean(s: State, now: int)
    requires !s.clean
    ensures !Pumped(s, now).clean
  {
    hide Drained, HoleSize;
    var s1 := s.(packets := Touched(s.packets, Key(s.head)));
    DrainedStaysUnclean(s1, false, now);
    DrainedStaysUnclean(GivenUp(s1.(waits := s1.waits + 1)), false, now);
  }

  /** The largest sequence whose whole past can be asked for in one request. */
  const MAX_SEQ: nat := 0x7FFF_FFFE

  /** An arrival carries a sequence a sender counts up to from 0. */
  predicate Counted(e: Event) { e.Arrive? ==> 0 <= e.seqNo <= MAX_SEQ }

  /** In a clean epoch every stored key is a sequence counted from 0. */
  ghost predicate InRange(s: State) { s.clean ==> Bounded(s, MAX_SEQ) }

  lemma StepInRange(s: State, e: Event)
    requires Inv(s) && InRange(s) && Legal(e) && Counted(e)
    ensures InRange(Step(s, e))
  {
    hide Arrived, Pumped;
    match e {
      case Arrive(seqNo, payload, continuation, now) => ArrivedBounded(s, seqNo, payload, continuation, now, MAX_SEQ);
      case Pump(now) =>
        if s.clean {
          PumpedBounded(s, now, MAX_SEQ);
        } else {
          PumpedStaysUnclean(s, now);
        }
      case _ =>
    }
  }

  // ----- Re-requests -----

  /** A re-request starts at the head and covers no sequence whose data is held. */
  ghost predicate NackSafe(s: State, n: Nack) {
    && n.start == s.head && n.count >= 1
    && forall k: nat :: n.start <= k < n.start + n.count ==> !SlotAt(s.packets, k).Held?
  }

  /** Between `s` and `r` at most one re-request went out, and it is safe in `r`. */
  ghost predicate NacksSafe(s: State, r: State) {
    && s.nacks <= r.nacks && |r.nacks| <= |s.nacks| + 1
    && (r.clean && r.nacks != s.nacks ==> NackSafe(r, r.nacks[|s.nacks|]))
  }

  lemma JudgedNacks(s: State, continuation: bool, now: int)
    requires Inv(s) && InRange(s) && HeadHeld(s)
    ensures var (s1, v) := Judged(s, continuation, now); NacksSafe(s, s1) && (v != Return ==> s1.nacks == s.nacks)
  {
    hide Opening, Completed;
    var payload := s.packets[Key(s.head)].payload;
    OpeningNacks(s, payload, continuation);
    if s.splitLen > 0 {
      CompletedNacks(s.(splitBuf := s.splitBuf + payload, splitLen := s.splitLen - |payload|), now);
    }
  }

  lemma OpeningNacks(s: State, payload: seq<byte>, continuation: bool)
    ensures Opening(s, payload, continuation).0.nacks == s.nacks
  {
    hide WalkHere, FirstChunk, WordAt;
  }

  lemma CompletedNacks(s: State, now: int)
    requires s.clean ==> 0 <= s.splitStart <= s.head <= MAX_SEQ
    ensures var (s1, v) := Completed(s, now); NacksSafe(s, s1) && (v != Return ==> s1.nacks == s.nacks)
  {
    hide WalkHere, Walked, RolledBack;
    var s0, w := s.(splitLen := 0), WalkHere(s, s.splitBuf);
    WalkedNacks(s0, w);
    RolledBackNacks(Walked(s0, w).0, now);
  }

  lemma WalkedNacks(s: State, w: Walk)
    ensures var s1 := Walked(s, w).0;
      s1.nacks == s.nacks && s1.splitStart == s.splitStart && (s1.clean ==> s.clean && s1.head == s.head)
  {
  }

  lemma RolledBackNacks(s: State, now: int)
    requires s.clean ==> 0 <= s.splitStart <= s.head <= MAX_SEQ
    ensures NacksSafe(s, RolledBack(s, now))
  {
    if s.clean {
      FitsInt32(s.splitStart);
      FitsInt32(s.head - s.splitStart + 1);
    }
  }

  /** Small numbers survive the narrowing. */
  lemma FitsInt32(v: int)
    ensures AsInt32(v) == v <==> -0x8000_0000 <= v < 0x8000_0000
    ensures -0x8000_0000 <= AsInt32(v) < 0x8000_0000
  {
  }

  lemma ProcessNacks(s: State, continuation: bool, now: int)
    requires Inv(s) && InRange(s) && HeadHeld(s)
    ensures var (s1, more) := Process(s, continuation, now);
      NacksSafe(s, s1) && (more ==> s1.nacks == s.nacks)
  {
    hide Judged, Bounded;
    JudgedNacks(s, continuation, now);
  }

  lemma ProcessInRange(s: State, continuation: bool, now: int)
    requires Inv(s) && InRange(s) && HeadHeld(s)
    ensures InRange(Process(s, continuation, now).0)
  {
    hide Process, Bounded, Inv;
    if s.clean {
      ProcessBounded(s, continuation, now, MAX_SEQ);
    } else {
      ProcessStaysUnclean(s, continuation, now);
    }
  }

  lemma TouchedInRange(s: State)
    requires Inv(s) && InRange(s)
    ensures InRange(s.(packets := Touched(s.packets, Key(s.head))))
  {
  }

  lemma {:induction false} DrainLoopNacks(s: State, continuation: bool, now: int)
    requires Inv(s) && InRange(s)
    ensures var (r, toEnd) := DrainLoop(s, continuation, now);
      NacksSafe(s, r) && (toEnd ==> r.nacks == s.nacks)
    decreases HeldKeys(s.packets)
  {
    hide Process, Inv, InRange;
    var s0 := s.(packets := Touched(s.packets, Key(s.head)));
    TouchedInv(s, Key(s.head));
    TouchedInRange(s);
    assert HeldKeys(s0.packets) == HeldKeys(s.packets);
    if HeadHeld(s0) {
      ProcessInv(s0, continuation, now);
      ProcessInRange(s0, continuation, now);
      ProcessNacks(s0, continuation, now);
      if Process(s0, continuation, now).1 {
        ProcessReleases(s0, continuation, now);
        DrainLoopNacks(Process(s0, continuation, now).0, continuation, now);
      }
    }
  }

  lemma DrainedNacks(s: State, continuation: bool, now: int)
    requires Inv(s) && InRange(s)
    ensures NacksSafe(s, Drained(s, continuation, now))
  {
    hide DrainLoop, Pruned;
    DrainLoopNacks(s, continuation, now);
  }

  lemma EarlyNacks(s: State, continuation: bool, now: int)
    requires Inv(s) && InRange(s) && (s.clean ==> s.head <= MAX_SEQ)
    ensures NacksSafe(s, Early(s, continuation, now))
  {
    hide Drained, Inv, NacksSafe, InRange;
    var s1 := s.(waits := s.waits + 1, packets := Touched(s.packets, Key(s.head)));
    WaitInv(s, s1.packets);
    WaitInRange(s, s1.packets);
    var slot, r := s1.packets[Key(s.head)], Early(s, continuation, now);
    if slot in {Blank, ReRequested} && s1.waits > MAX_WAITS {
      assert r == GivenUp(s1);
    } else if slot == Blank {
      AskNacks(s1, r);
    } else {
      DrainedNacks(s1, continuation, now);
    }
    NacksFrom(s, s1, r);
  }

  lemma WaitInRange(s: State, m: Slots)
    requires Inv(s) && InRange(s) && m == Touched(s.packets, Key(s.head))
    ensures InRange(s.(waits := s.waits + 1, packets := m))
  {
  }

  /** Asking for the head alone, once its slot is marked. */
  lemma AskNacks(s: State, r: State)
    requires Inv(s) && (s.clean ==> s.head <= MAX_SEQ)
    requires r.nacks == s.nacks + [Nack(AsInt32(s.head), AsInt32(1))] && r.clean == s.clean && r.head == s.head
    requires r.packets == s.packets[Key(s.head) := ReRequested]
    ensures NacksSafe(s, r)
  {
    FitsInt32(s.head);
    FitsInt32(1);
  }

  lemma NacksFrom(s: State, s1: State, r: State)
    requires s1.nacks == s.nacks && (NacksSafe(s1, r) || r.nacks == s1.nacks)
    ensures NacksSafe(s, r)
  {
  }

  lemma ArrivedNacks(s: State, seqNo: int, payload: seq<byte>, continuation: bool, now: int)
    requires Inv(s) && InRange(s) && 0 <= seqNo <= MAX_SEQ
    ensures NacksSafe(s, Arrived(s, seqNo, payload, continuation, now))
  {
    hide Drained, Early, Reset;
    ResetInv(s);
    ResetNacks(s);
    ResetClean(s);
    var s1 := if seqNo == 0 then Reset(s) else s;
    var s2 := s1.(packets := s1.packets[Key(seqNo) := Held(payload)]);
    assert Inv(s2) && InRange(s2);
    DrainedNacks(s2, continuation, now);
    if seqNo > s2.head {
      EarlyNacks(s2, continuation, now);
    }
  }

  lemma ResetNacks(s: State)
    ensures Reset(s).nacks == s.nacks
  {
  }

  /** The size of the hole is positive exactly when the next stored key lies less than 2^63 above the head; then it
      is the distance to that key, and nothing is stored in between. */
  lemma HoleEmpty(m: Slots, head: Position)
    requires Key(head) < KEY_SPACE && forall k :: k in m ==> k < KEY_SPACE
    ensures var above := KeysAbove(m, Key(head));
      && (HoleSize(m, head) >= 1 <==> above == {} || Least(above) < Key(head) + 0x8000_0000_0000_0000)
      && (HoleSize(m, head) >= 1 ==> HoleSize(m, head) == if above == {} then 1 else Least(above) - Key(head))
      && forall k: nat :: Key(head) < k < Key(head) + HoleSize(m, head) ==> k !in m
  {
    var above := KeysAbove(m, Key(head));
    if above != {} {
      LongIs(Least(above) - Key(head));
    }
    forall k: nat | Key(head) < k < Key(head) + HoleSize(m, head)
      ensures k !in m
    {
      assert k in m ==> k in above;
    }
  }

  lemma LongIs(v: int)
    requires 0 <= v < KEY_SPACE
    ensures AsLong(v) == if v < 0x8000_0000_0000_0000 then v else v - KEY_SPACE
  {
  }

  lemma RetriedNacks(s: State, now: int)
    requires Inv(s) && InRange(s) && Outstanding(s)
    ensures NacksSafe(s, Retried(s, now))
  {
    hide Drained, HoleSize, Inv;
    var s1 := GivenUp(s.(waits := s.waits + 1));
    if s.waits + 1 > MAX_WAITS {
      SkipInv(s);
      SkipInRange(s);
      DrainedNacks(s1, false, now);
    } else if s.clean {
      CleanHead(s);
      HoleInRange(s);
      FitsInt32(s.head);
      FitsInt32(HoleSize(s.packets, s.head));
    }
  }

  /** In a clean epoch of counted sequences the hole below the newest key is a small positive number. */
  lemma HoleInRange(s: State)
    requires Inv(s) && s.clean && InRange(s) && Outstanding(s)
    ensures s.head <= MAX_SEQ && 1 <= HoleSize(s.packets, s.head) <= MAX_SEQ
    ensures forall k: nat :: s.head < k < s.head + HoleSize(s.packets, s.head) ==> k !in s.packets
  {
    hide HoleSize;
    var above := KeysAbove(s.packets, Key(s.head));
    assert Greatest(s.packets.Keys) in above;
    HoleEmpty(s.packets, s.head);
  }

  /** Skipping a missing head that something newer is waiting behind. */
  lemma SkipInRange(s: State)
    requires Inv(s) && InRange(s) && Outstanding(s)
    ensures InRange(GivenUp(s.(waits := s.waits + 1)))
  {
    if s.clean {
      assert Greatest(s.packets.Keys) in s.packets;
    }
  }

  /** Skipping the head keeps the invariant. */
  lemma SkipInv(s: State)
    requires Inv(s)
    ensures Inv(GivenUp(s.(waits := s.waits + 1)))
  {
  }

  lemma PumpedNacks(s: State, now: int)
    requires Inv(s) && InRange(s)
    ensures NacksSafe(s, Pumped(s, now))
  {
    hide Drained, Retried, Inv, NackSafe, InRange;
    var s1 := s.(packets := Touched(s.packets, Key(s.head)));
    TouchedInv(s, Key(s.head));
    TouchedInRange(s);
    DrainedNacks(s1, false, now);
    if Outstanding(s) {
      TouchedOutstanding(s);
      RetriedNacks(s1, now);
    }
  }

  lemma TouchedOutstanding(s: State)
    requires Outstanding(s)
    ensures Outstanding(s.(packets := Touched(s.packets, Key(s.head))))
  {
    var m := Touched(s.packets, Key(s.head));
    assert Greatest(s.packets.Keys) in m.Keys;
  }

  /** Every re-request of an epoch of counted sequences starts at the head the step ends with and covers nothing
      held. */
  lemma StepNacks(s: State, e: Event)
    requires Inv(s) && InRange(s) && Legal(e) && Counted(e)
    ensures NacksSafe(s, Step(s, e))
  {
    hide Arrived, Pumped;
    match e {
      case Arrive(seqNo, payload, continuation, now) => ArrivedNacks(s, seqNo, payload, continuation, now);
      case Pump(now) => PumpedNacks(s, now);
      case _ =>
    }
  }

  // ----- Negative sequences -----

  /** The timer asks for the hole at the head. */
  predicate AsksForHole(s: State, now: int) {
    && s.loginComplete && s.active && Outstanding(s) && now - s.resendAt >= RESEND_INTERVAL && s.waits < MAX_WAITS
    && SlotAt(s.packets, Key(s.head)) in {Blank, ReRequested}
  }

  /** The request on the wire: from the head, for everything up to the next stored key. */
  predicate AsksForAll(s: State, n: Nack)
    requires Outstanding(s)
  {
    var above := KeysAbove(s.packets, Key(s.head));
    assert Greatest(s.packets.Keys) in above;
    n == Nack(s.head, Least(above) - Key(s.head))
  }

  /** From every state: the timer's request starts at the head and covers exactly the hole if and only if head and
      distance to the next stored key both fit the 32-bit fields. A negative sequence beyond the head does not. */
  lemma PumpRequestExact(s: State, now: int)
    requires AsksForHole(s, now) && 0 <= s.head && forall k :: k in s.packets ==> k < KEY_SPACE
    ensures KeysAbove(s.packets, s.head) != {}
    ensures var next := Least(KeysAbove(s.packets, s.head));
      var r := Pumped(s, now);
      && |r.nacks| == |s.nacks| + 1 && r.nacks[..|s.nacks|] == s.nacks && r.head == s.head
      && r.nacks[|s.nacks|] == Nack(AsInt32(s.head), AsInt32(HoleSize(s.packets, s.head)))
      && (AsksForAll(s, r.nacks[|s.nacks|]) <==> s.head < 0x8000_0000 && next - s.head < 0x8000_0000)
      && (HoleSize(s.packets, s.head) >= 1 <==> next < s.head + 0x8000_0000_0000_0000)
  {
    hide HoleSize, Drained;
    var above := KeysAbove(s.packets, s.head);
    assert Greatest(s.packets.Keys) in above;
    assert Greatest(s.packets.Keys) in s.packets;
    var m := Touched(s.packets, Key(s.head));
    assert KeysAbove(m, s.head) == above;
    HoleEmpty(s.packets, s.head);
    HoleAfterTouch(s.packets, s.head);
    FitsInt32(s.head);
    NarrowedHole(Least(above) - s.head, HoleSize(s.packets, s.head));
    assert Pumped(s, now) == Retried(s.(packets := m), now);
  }

  lemma HoleAfterTouch(m: Slots, head: Position)
    ensures HoleSize(Touched(m, Key(head)), head) == HoleSize(m, head)
  {
    assert KeysAbove(Touched(m, Key(head)), Key(head)) == KeysAbove(m, Key(head));
  }

  /** Narrowing the signed distance gives the distance back only if it is small. */
  lemma NarrowedHole(distance: int, size: int)
    requires 1 <= distance < KEY_SPACE && (size >= 1 <==> distance < 0x8000_0000_0000_0000)
    requires size >= 1 ==> size == distance
    ensures AsInt32(size) == distance <==> size >= 1 && distance < 0x8000_0000
  {
    FitsInt32(size);
  }

  /** Sequence -1 stored beyond the head makes the timer ask for minus one packet. */
  lemma NegativeCount(s: State)
    requires s.active && s.loginComplete && !s.hung && s.head == 0 && s.packets == map[] && s.waits == 0 && s.resendAt == 0
    ensures var s1 := Step(s, Arrive(-1, [], false, 0));
      Step(s1, Pump(300)).nacks == s.nacks + [Nack(0, -1)]
  {
    var far := KEY_SPACE - 1;
    var s1 := Step(s, Arrive(-1, [], false, 0));
    var m: Slots := map[0 := Blank, far := Held([])];
    assert s.packets[far := Held([])][0 := Blank] == m;
    assert Least(m.Keys) == 0 by {
      assert 0 in m.Keys;
    }
    assert Pruned(m, 0) == m;
    assert s1 == s.(packets := m);
    assert Greatest(m.Keys) == far by {
      assert far in m.Keys;
    }
    assert KeysAbove(m, 0) == {far};
    assert HoleSize(m, 0) == -1 by {
      LongIs(far);
    }
  }

  // ----- Runs -----

  function RunOf(s: State, es: seq<Event>): State
    requires forall i :: 0 <= i < |es| ==> Legal(es[i])
  {
    if es == [] then s else Step(RunOf(s, es[..|es| - 1]), es[|es| - 1])
  }

  /** In every state reachable from the start the epoch's invariant holds. In every state reachable by sequences
      counted from 0, whatever happens next asks only for data that is missing, from the head on. */
  lemma {:induction false} EveryRunSafe(headerSize: nat, es: seq<Event>, next: Event)
    requires Legal(next) && forall i :: 0 <= i < |es| ==> Legal(es[i])
    ensures var s := RunOf(Initial(headerSize), es);
      && Inv(s)
      && (Counted(next) && (forall i :: 0 <= i < |es| ==> Counted(es[i])) ==> InRange(s) && NacksSafe(s, Step(s, next)))
  {
    hide Step, NacksSafe, InRange, Counted;
    var s := RunOf(Initial(headerSize), es);
    if es == [] {
      StartsInRange(headerSize);
    } else {
      var front, e := es[..|es| - 1], es[|es| - 1];
      EveryRunSafe(headerSize, front, e);
      StepInv(RunOf(Initial(headerSize), front), e);
      if forall i :: 0 <= i < |es| ==> Counted(es[i]) {
        assert forall i :: 0 <= i < |front| ==> front[i] == es[i];
        StepInRange(RunOf(Initial(headerSize), front), e);
      }
    }
    if Counted(next) && forall i :: 0 <= i < |es| ==> Counted(es[i]) {
      StepNacks(s, next);
    }
  }

  lemma StartsInRange(headerSize: nat)
    ensures Inv(Initial(headerSize)) && InRange(Initial(headerSize))
  {
  }
}
