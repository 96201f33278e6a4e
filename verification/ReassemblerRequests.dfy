/** When requests go out: which arrivals ask, skip, wait or store, what the timer does, and that over every run no slot is
    marked as asked for unless a request for it has been sent. */
module ReassemblerRequests {
  import opened Bytes
  import opened PacketWalk
  import opened Reassembler
  import opened ReassemblerSafety

  // ----- One arrival -----

  /** An arrival ahead of a head that has not been asked for sends exactly one request, for that head alone, stamps the
      timer, marks the head and counts a wait and a loss. Nothing is forwarded. */
  lemma EarlyAsks(s: State, seqNo: int, payload: seq<byte>, continuation: bool, now: int)
    requires s.active && !s.hung && 0 <= s.head < seqNo <= s.head + 30 && Legal(Arrive(seqNo, payload, continuation, now))
    requires SlotAt(s.packets, s.head) == Blank && s.waits < 10
    ensures var r := Step(s, Arrive(seqNo, payload, continuation, now));
      && r.nacks == s.nacks + [Nack(s.head, 1)] && r.resendAt == now
      && r.packets == s.packets[seqNo := Held(payload)][s.head := ReRequested]
      && r.head == s.head && r.waits == s.waits + 1 && r.drops == s.drops + 1
      && r.packetTimer == (if s.drops >= 500 then 2000 else if s.drops >= 40 then 500 else s.packetTimer)
      && r.log == s.log && r.commits == s.commits
  {
    hide Drained, AsInt32;
    FitsInt32(s.head);
    FitsInt32(1);
    assert Touched(s.packets[seqNo := Held(payload)], s.head)[s.head := ReRequested]
        == s.packets[seqNo := Held(payload)][s.head := ReRequested];
  }

  /** Ten waits later the head is skipped instead: nothing is asked for and nothing forwarded, even if what follows the
      head is there. */
  lemma EarlySkips(s: State, seqNo: int, payload: seq<byte>, continuation: bool, now: int)
    requires s.active && !s.hung && 0 <= s.head < seqNo <= s.head + 30 && Legal(Arrive(seqNo, payload, continuation, now))
    requires SlotAt(s.packets, s.head) in {Blank, ReRequested} && s.waits >= 10
    ensures var r := Step(s, Arrive(seqNo, payload, continuation, now));
      && r.head == s.head + 1 && r.waits == 0 && r.nacks == s.nacks && r.log == s.log && r.commits == s.commits
      && forall k: nat :: SlotAt(r.packets, k) == SlotAt(s.packets[seqNo := Held(payload)], k)
  {
    hide Drained;
  }

  /** An arrival behind a head that has been asked for only counts a wait, until it is time to skip. */
  lemma EarlyWaits(s: State, seqNo: int, payload: seq<byte>, continuation: bool, now: int)
    requires s.active && !s.hung && 0 <= s.head < seqNo <= s.head + 30 && Legal(Arrive(seqNo, payload, continuation, now))
    requires SlotAt(s.packets, s.head) == ReRequested && s.waits < 10
    ensures var r := Step(s, Arrive(seqNo, payload, continuation, now));
      && r.head == s.head && r.waits == s.waits + 1 && r.nacks == s.nacks && r.log == s.log && r.commits == s.commits
      && r.packets == Pruned(s.packets[seqNo := Held(payload)], s.head)
  {
    hide Pruned;
    var s2 := s.(packets := s.packets[seqNo := Held(payload)]);
    var s1 := s2.(waits := s.waits + 1);
    assert Touched(s2.packets, s.head) == s2.packets;
    DrainLoopEnds(s1, continuation, now);
  }

  /** More than thirty ahead of the head a datagram is stored and nothing else happens; without a connection it is not
      even stored. */
  lemma FarAhead(s: State, seqNo: int, payload: seq<byte>, continuation: bool, now: int)
    requires !s.hung && 0 <= s.head && 0 < seqNo && Legal(Arrive(seqNo, payload, continuation, now))
    ensures var r := Step(s, Arrive(seqNo, payload, continuation, now));
      && (!s.active ==> r == s)
      && (s.active && seqNo > s.head + 30 ==> r == s.(packets := s.packets[seqNo := Held(payload)]))
  {
    hide Drained, Early;
  }

  /** Sequence 0 starts the stream over even without a connection: slots, position, losses and commits are forgotten and the
      timer goes back to 100, but a split in flight stays, and then the epoch does not count as clean. */
  lemma StartsOver(s: State, payload: seq<byte>, continuation: bool, now: int)
    requires !s.hung && !s.active && Legal(Arrive(0, payload, continuation, now))
    ensures Step(s, Arrive(0, payload, continuation, now)) ==
      s.(head := 0, packets := map[], drops := 0, packetTimer := 100, commits := [], clean := s.splitLen == 0)
  {
    hide Drained, Early;
  }

  // ----- The timer -----

  /** The timer does nothing before the login is complete, without a connection, or when nothing newer than the head is
      stored; with a head in hand it drains; and it asks at most every 300 milliseconds. */
  lemma PumpIdle(s: State, now: int)
    requires !s.hung && 0 <= s.head
    ensures !s.loginComplete || !s.active || (forall k :: k in s.packets ==> k <= s.head) ==> Step(s, Pump(now)) == s
    ensures SlotAt(s.packets, s.head) in {Blank, ReRequested} && now - s.resendAt < 300 ==>
      var r := Step(s, Pump(now));
      r == s.(packets := r.packets) && forall k: nat :: SlotAt(r.packets, k) == SlotAt(s.packets, k)
  {
    hide Drained, Retried;
    if s.packets != map[] {
      assert Greatest(s.packets.Keys) in s.packets;
    }
  }

  /** When it asks, it stamps the timer, marks the head and counts a wait and a loss. */
  lemma PumpAsks(s: State, now: int)
    requires !s.hung && 0 <= s.head && AsksForHole(s, now)
    ensures var r := Step(s, Pump(now));
      && |r.nacks| == |s.nacks| + 1 && r.nacks[..|s.nacks|] == s.nacks && r.resendAt == now
      && SlotAt(r.packets, s.head) == ReRequested
      && (forall k: nat :: k != s.head ==> SlotAt(r.packets, k) == SlotAt(s.packets, k))
      && r.head == s.head && r.waits == s.waits + 1 && r.drops == s.drops + 1 && r.log == s.log && r.commits == s.commits
  {
    hide Drained, HoleSize, AsInt32;
    assert Pumped(s, now) == Retried(s.(packets := Touched(s.packets, Key(s.head))), now);
  }

  /** Ten retries later it skips the head and drains what follows. */
  lemma PumpSkips(s: State, now: int)
    requires !s.hung && 0 <= s.head && s.loginComplete && s.active && Outstanding(s) && now - s.resendAt >= 300 && s.waits >= 10
    requires SlotAt(s.packets, s.head) in {Blank, ReRequested}
    ensures Step(s, Pump(now)) == Drained(s.(packets := Touched(s.packets, s.head), head := s.head + 1, waits := 0), false, now)
  {
    hide Drained, HoleSize;
    assert Pumped(s, now) == Retried(s.(packets := Touched(s.packets, Key(s.head))), now);
  }

  /** Narrowing keeps the low bits: a request's fields are the numbers modulo 2^32 and the distance is modulo 2^64, read
      as signed. */
  lemma NarrowedExactly(v: int)
    ensures -0x8000_0000 <= AsInt32(v) < 0x8000_0000 && (v - AsInt32(v)) % 0x1_0000_0000 == 0
    ensures -0x8000_0000_0000_0000 <= AsLong(v) < 0x8000_0000_0000_0000 && (v - AsLong(v)) % 0x1_0000_0000_0000_0000 == 0
  {
    var m, k := 0x1_0000_0000, v / 0x1_0000_0000;
    RemainderIs(v - AsInt32(v), m, if v % m < 0x8000_0000 then k else k + 1, 0);
    var m', k' := KEY_SPACE, v / KEY_SPACE;
    RemainderIs(v - AsLong(v), m', if v % m' < 0x8000_0000_0000_0000 then k' else k' + 1, 0);
  }

  // ----- Pruning -----

  /** A drain keeps exactly the processed sequences at most 64 behind the head, and everything ahead of it. */
  lemma {:induction false} PrunedExact(m: Slots, h: nat)
    requires forall k :: k in m ==> k + 64 < KEY_SPACE
    ensures Pruned(m, h) == map k | k in m && k + 64 >= h :: m[k]
    decreases |m|
  {
    if m != map[] {
      var first := Least(m.Keys);
      assert (first + KEPT_BEHIND) % KEY_SPACE == first + 64;
      if first + 64 < h {
        PrunedExact(m - {first}, h);
      } else {
        assert forall k :: k in m ==> first <= k;
      }
    }
  }

  // ----- Nothing is marked without a request -----

  ghost predicate Requests(nacks: seq<Nack>, k: nat) { exists n :: n in nacks && n.start <= k < n.start + n.count }

  ghost predicate AskedFor(m: Slots, nacks: seq<Nack>) { forall k :: k in m && m[k] == ReRequested ==> Requests(nacks, k) }

  /** In a clean epoch every slot marked as asked for is covered by a request that was sent. */
  ghost predicate Asked(s: State) { s.clean ==> AskedFor(s.packets, s.nacks) }

  lemma AskedMore(m: Slots, nacks: seq<Nack>, n: Nack, r: Slots)
    requires AskedFor(m, nacks)
    requires forall k :: k in r && r[k] == ReRequested ==> (k in m && m[k] == ReRequested) || n.start <= k < n.start + n.count
    ensures AskedFor(r, nacks + [n])
  {
    forall k | k in r && r[k] == ReRequested
      ensures Requests(nacks + [n], k)
    {
      if k in m && m[k] == ReRequested {
        var n' :| n' in nacks && n'.start <= k < n'.start + n'.count;
        assert n' in nacks + [n];
      } else {
        assert n in nacks + [n];
      }
    }
  }

  /** Slots that are not newly marked need no request. */
  lemma AskedFewer(m: Slots, nacks: seq<Nack>, r: Slots)
    requires AskedFor(m, nacks) && forall k :: k in r && r[k] == ReRequested ==> k in m && m[k] == ReRequested
    ensures AskedFor(r, nacks)
  {
  }

  lemma RolledBackAsked(s: State, now: int)
    requires Asked(s) && (s.clean ==> 0 <= s.splitStart <= s.head <= MAX_SEQ)
    ensures Asked(RolledBack(s, now))
  {
    hide Requests, AskedFor, AsInt32;
    if s.clean {
      FitsInt32(s.splitStart);
      FitsInt32(s.head - s.splitStart + 1);
      var r := RolledBack(s, now);
      AskedMore(s.packets, s.nacks, Nack(s.splitStart, s.head - s.splitStart + 1), r.packets);
    }
  }

  lemma WalkedAsked(s: State, w: Walk)
    requires Asked(s)
    ensures Asked(Walked(s, w).0)
  {
  }

  lemma CompletedAsked(s: State, now: int)
    requires Asked(s) && (s.clean ==> 0 <= s.splitStart <= s.head <= MAX_SEQ)
    ensures Asked(Completed(s, now).0)
  {
    hide WalkHere, Walked, RolledBack, Asked;
    var s0, w := s.(splitLen := 0), WalkHere(s, s.splitBuf);
    SameAsked(s, s0);
    WalkedAsked(s0, w);
    WalkedClean(s0, w);
    RolledBackAsked(Walked(s0, w).0, now);
  }

  lemma SameAsked(s: State, r: State)
    requires Asked(s) && r.packets == s.packets && r.nacks == s.nacks && r.clean == s.clean
    ensures Asked(r)
  {
  }

  lemma OpeningAsked(s: State, payload: seq<byte>, continuation: bool)
    requires Asked(s)
    ensures Asked(Opening(s, payload, continuation).0)
  {
    hide WalkHere, FirstChunk, WordAt, Walked, AskedFor;
    WalkedAsked(s, WalkHere(s, payload));
  }

  lemma JudgedAsked(s: State, continuation: bool, now: int)
    requires Inv(s) && InRange(s) && HeadHeld(s) && Asked(s)
    ensures Asked(Judged(s, continuation, now).0)
  {
    hide Opening, Completed, AskedFor;
    var payload := s.packets[Key(s.head)].payload;
    OpeningAsked(s, payload, continuation);
    var s1 := s.(splitBuf := s.splitBuf + payload, splitLen := s.splitLen - |payload|);
    if s.splitLen > 0 {
      CompletedAsked(s1, now);
    }
  }

  lemma FinishedAsked(s: State, pass: bool)
    requires Asked(s)
    ensures Asked(Finished(s, pass))
  {
    hide Requests;
  }

  lemma ProcessAsked(s: State, continuation: bool, now: int)
    requires Inv(s) && InRange(s) && HeadHeld(s) && Asked(s)
    ensures Asked(Process(s, continuation, now).0)
  {
    hide Judged, Inv, InRange, Asked;
    JudgedAsked(s, continuation, now);
    var (s1, v) := Judged(s, continuation, now);
    FinishedAsked(s1, v == Pass);
  }

  lemma TouchedAsked(s: State)
    requires Asked(s)
    ensures Asked(s.(packets := Touched(s.packets, Key(s.head))))
  {
    hide Requests;
  }

  lemma {:induction false} DrainLoopAsked(s: State, continuation: bool, now: int)
    requires Inv(s) && InRange(s) && Asked(s)
    ensures Asked(DrainLoop(s, continuation, now).0)
    decreases HeldKeys(s.packets)
  {
    hide Process, Inv, InRange, Asked;
    var s0 := s.(packets := Touched(s.packets, Key(s.head)));
    TouchedInv(s, Key(s.head));
    TouchedInRange(s);
    TouchedAsked(s);
    assert HeldKeys(s0.packets) == HeldKeys(s.packets);
    if HeadHeld(s0) {
      ProcessInv(s0, continuation, now);
      ProcessInRange(s0, continuation, now);
      ProcessAsked(s0, continuation, now);
      if Process(s0, continuation, now).1 {
        ProcessReleases(s0, continuation, now);
        DrainLoopAsked(Process(s0, continuation, now).0, continuation, now);
      }
    }
  }

  lemma DrainedAsked(s: State, continuation: bool, now: int)
    requires Inv(s) && InRange(s) && Asked(s)
    ensures Asked(Drained(s, continuation, now))
  {
    hide DrainLoop, Pruned, Requests, Inv, InRange;
    DrainLoopAsked(s, continuation, now);
  }

  lemma EarlyAsked(s: State, continuation: bool, now: int)
    requires Inv(s) && InRange(s) && Asked(s)
    ensures Asked(Early(s, continuation, now))
  {
    hide Drained, Inv, InRange, Asked, AskedForHead, GivenUp;
    var s1 := s.(waits := s.waits + 1, packets := Touched(s.packets, Key(s.head)));
    TouchedAsked(s);
    SameAsked(s.(packets := s1.packets), s1);
    WaitInv(s, s1.packets);
    WaitInRange(s, s1.packets);
    DrainedAsked(s1, continuation, now);
    GivenUpAsked(s1);
    AskedForHeadAsked(s1, now);
  }

  lemma GivenUpAsked(s: State)
    requires Asked(s)
    ensures Asked(GivenUp(s))
  {
    hide AskedFor;
  }

  lemma AskedForHeadAsked(s: State, now: int)
    requires Inv(s) && InRange(s) && Asked(s)
    ensures Asked(AskedForHead(s, now))
  {
    hide Requests, AskedFor, AsInt32;
    if s.clean {
      FitsInt32(s.head);
      FitsInt32(1);
      AskedMore(s.packets, s.nacks, Nack(s.head, 1), s.packets[Key(s.head) := ReRequested]);
    }
  }

  lemma StoredAsked(s: State, seqNo: int, payload: seq<byte>)
    requires Asked(s) && -0x8000_0000 <= seqNo
    ensures Asked(Stored(s, seqNo, payload)) && Asked(Reset(s))
  {
    hide Requests;
  }

  lemma StoredInRange(s: State, seqNo: int, payload: seq<byte>)
    requires Inv(s) && InRange(s) && 0 <= seqNo <= MAX_SEQ
    ensures Inv(Stored(s, seqNo, payload)) && InRange(Stored(s, seqNo, payload))
  {
    ResetInv(s);
    ResetClean(s);
  }

  lemma ArrivedAsked(s: State, seqNo: int, payload: seq<byte>, continuation: bool, now: int)
    requires Inv(s) && InRange(s) && Asked(s) && 0 <= seqNo <= MAX_SEQ
    ensures Asked(Arrived(s, seqNo, payload, continuation, now))
  {
    hide Drained, Early, Reset, Inv, InRange, Asked;
    StoredAsked(s, seqNo, payload);
    StoredInRange(s, seqNo, payload);
    var d := Stored(s, seqNo, payload);
    DrainedAsked(d, continuation, now);
    EarlyAsked(d, continuation, now);
  }

  lemma RetriedAsked(s: State, now: int)
    requires Inv(s) && InRange(s) && Asked(s) && Outstanding(s)
    ensures Asked(Retried(s, now))
  {
    hide Drained, HoleSize, Inv, InRange, AskedFor, AsInt32;
    var s1 := s.(waits := s.waits + 1);
    if s.waits + 1 > MAX_WAITS {
      SkipInv(s);
      SkipInRange(s);
      DrainedAsked(GivenUp(s1), false, now);
    } else if s.clean {
      CleanHead(s);
      HoleInRange(s);
      FitsInt32(s.head);
      FitsInt32(HoleSize(s.packets, s.head));
      AskedMore(s.packets, s.nacks, Nack(s.head, HoleSize(s.packets, s.head)), s.packets[Key(s.head) := ReRequested]);
    }
  }

  lemma PumpedAsked(s: State, now: int)
    requires Inv(s) && InRange(s) && Asked(s)
    ensures Asked(Pumped(s, now))
  {
    hide Drained, Retried, Inv, InRange, Asked;
    var s1 := s.(packets := Touched(s.packets, Key(s.head)));
    TouchedInv(s, Key(s.head));
    TouchedInRange(s);
    TouchedAsked(s);
    DrainedAsked(s1, false, now);
    if Outstanding(s) {
      TouchedOutstanding(s);
      RetriedAsked(s1, now);
    }
  }

  lemma StepAsked(s: State, e: Event)
    requires Inv(s) && InRange(s) && Asked(s) && Legal(e) && Counted(e)
    ensures Asked(Step(s, e))
  {
    hide Arrived, Pumped, AskedFor;
    match e {
      case Arrive(seqNo, payload, continuation, now) => ArrivedAsked(s, seqNo, payload, continuation, now);
      case Pump(now) => PumpedAsked(s, now);
      case _ =>
    }
  }

  /** In every state reachable by sequences counted from 0, a clean epoch has no slot marked as asked for that no request
      sent so far covers. */
  lemma {:induction false} EveryMarkAsked(headerSize: nat, es: seq<Event>)
    requires forall i :: 0 <= i < |es| ==> Legal(es[i]) && Counted(es[i])
    ensures var s := RunOf(Initial(headerSize), es); Inv(s) && InRange(s) && Asked(s)
  {
    hide Step, InRange, Counted, Asked, Inv;
    if es == [] {
      StartsInRange(headerSize);
      NothingAsked(headerSize);
    } else {
      var front, e := es[..|es| - 1], es[|es| - 1];
      assert forall i :: 0 <= i < |front| ==> front[i] == es[i];
      EveryMarkAsked(headerSize, front);
      StepInv(RunOf(Initial(headerSize), front), e);
      StepInRange(RunOf(Initial(headerSize), front), e);
      StepAsked(RunOf(Initial(headerSize), front), e);
    }
  }

  lemma NothingAsked(headerSize: nat)
    ensures Asked(Initial(headerSize))
  {
  }
}
