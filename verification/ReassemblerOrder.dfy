/** Order and duplicate insensitivity: whatever order packets arrive in and however often, the client sees
    exactly what an ideal in-order receiver would have forwarded, split packets included. */
module ReassemblerOrder {
  import opened Bytes
  import opened PacketWalk
  import opened Reassembler
  import opened ReassemblerSafety

  // ----- The ideal receiver -----

  /** A receiver fed each packet once, in order. `commits` lists the packets that set off a walk, and `calm` says that
      every walk so far passed quietly. */
  datatype Ideal = Ideal(splitLen: int, splitBuf: seq<byte>, log: seq<Output>, commits: seq<int>, calm: bool)

  function Emitted(i: Ideal, buf: seq<byte>, at: nat): Ideal {
    var w := WalkOf(buf, false);
    i.(splitLen := 0, log := i.log + w.out, commits := i.commits + [at], calm := i.calm && Calm(w))
  }

  function Consumed(i: Ideal, payload: seq<byte>, at: nat, headerSize: nat): Ideal {
    if payload == [] then i.(splitLen := 0)
    else if i.splitLen == 0 then
      if StartsSplit(payload, headerSize) then
        i.(splitLen := WordAt(payload, 0) - headerSize, splitBuf := FirstChunk(payload, headerSize))
      else Emitted(i, payload, at)
    else
      var i1 := i.(splitLen := i.splitLen - |payload|, splitBuf := i.splitBuf + payload);
      if i1.splitLen > 0 then i1 else Emitted(i1, i1.splitBuf, at)
  }

  function InOrder(stream: seq<seq<byte>>, n: nat, headerSize: nat): (i: Ideal)
    requires n <= |stream|
  {
    if n == 0 then Ideal(0, [], [], [], true)
    else Consumed(InOrder(stream, n - 1, headerSize), stream[n - 1], n - 1, headerSize)
  }

  lemma {:induction false} CalmPrefix(stream: seq<seq<byte>>, m: nat, n: nat, headerSize: nat)
    requires m <= n <= |stream| && InOrder(stream, n, headerSize).calm
    ensures InOrder(stream, m, headerSize).calm
  {
    hide WalkOf, StartsSplit, FirstChunk, WordAt;
    if m < n {
      CalmPrefix(stream, m, n - 1, headerSize);
    }
  }

  // ----- The reassembler follows it -----

  /** What had been sent and committed before the first packet of the stream. */
  datatype Base = Base(log: seq<Output>, commits: seq<int>)

  ghost predicate Matches(s: State, i: Ideal, base: Base) {
    && s.splitLen == i.splitLen && (s.splitLen != 0 ==> s.splitBuf == i.splitBuf)
    && s.log == base.log + i.log && s.commits == base.commits + i.commits
  }

  /** From the head on, exactly the arrived packets are held, with the server's data. */
  ghost predicate SlotsFollow(m: Slots, head: int, stream: seq<seq<byte>>, arrived: set<int>) {
    forall k: nat :: head <= k ==>
      match SlotAt(m, k)
      case Held(payload) => k in arrived && k < |stream| && payload == stream[k]
      case Done => false
      case _ => k !in arrived
  }

  ghost predicate Follows(s: State, stream: seq<seq<byte>>, arrived: set<int>, base: Base) {
    && s.active && s.sector && !s.hung && !s.shutting
    && 0 <= s.head <= |stream|
    && (forall k :: 0 <= k < s.head ==> k in arrived)
    && SlotsFollow(s.packets, s.head, stream, arrived)
    && Matches(s, InOrder(stream, s.head, s.headerSize), base)
  }

  ghost predicate CalmStream(stream: seq<seq<byte>>, headerSize: nat) {
    |stream| <= 0x8000_0000 && InOrder(stream, |stream|, headerSize).calm
  }

  lemma WalkedCalm(s: State, w: Walk)
    requires Calm(w) && s.active && !s.shutting && !s.hung
    ensures var (s1, v) := Walked(s, w);
      && v == Pass && s1.log == s.log + w.out && s1.commits == s.commits + [s.head]
      && s1.packets == s.packets && s1.head == s.head && s1.splitLen == s.splitLen && s1.splitBuf == s.splitBuf
      && s1.active && s1.sector == s.sector && !s1.hung && !s1.shutting && s1.headerSize == s.headerSize
  {
  }

  /** The fields a decision leaves alone on a calm stream. */
  ghost predicate Undisturbed(s: State, s1: State) {
    && s1.packets == s.packets && s1.head == s.head && s1.headerSize == s.headerSize
    && s1.active && s1.sector && !s1.hung && !s1.shutting
  }

  lemma JudgedMatches(s: State, i: Ideal, base: Base, now: int)
    requires HeadHeld(s) && s.active && s.sector && !s.hung && !s.shutting && Matches(s, i, base) && 0 <= s.head
    requires Consumed(i, s.packets[Key(s.head)].payload, s.head, s.headerSize).calm
    ensures var (s1, v) := Judged(s, false, now);
      v == Pass && Undisturbed(s, s1)
      && Matches(s1, Consumed(i, s.packets[Key(s.head)].payload, s.head, s.headerSize), base)
  {
    hide WalkOf, Walked, StartsSplit, FirstChunk, WordAt, RolledBack;
    var payload := s.packets[Key(s.head)].payload;
    if payload == [] {
    } else if s.splitLen == 0 {
      if !StartsSplit(payload, s.headerSize) {
        WalkedCalm(s, WalkOf(payload, false));
      }
    } else {
      var s1 := s.(splitBuf := s.splitBuf + payload, splitLen := s.splitLen - |payload|);
      if s1.splitLen <= 0 {
        WalkedCalm(s1.(splitLen := 0), WalkOf(s1.splitBuf, false));
      }
    }
  }

  lemma ProcessFollows(s: State, stream: seq<seq<byte>>, arrived: set<int>, base: Base, now: int)
    requires Follows(s, stream, arrived, base) && CalmStream(stream, s.headerSize) && HeadHeld(s)
    ensures var (r, more) := Process(s, false, now);
      more && Follows(r, stream, arrived, base) && r.headerSize == s.headerSize
  {
    hide Judged, Consumed, Matches;
    var k := s.head;
    assert SlotAt(s.packets, k).Held? && k < |stream| && s.packets[k].payload == stream[k];
    CalmPrefix(stream, k + 1, |stream|, s.headerSize);
    var i := InOrder(stream, k, s.headerSize);
    assert InOrder(stream, k + 1, s.headerSize) == Consumed(i, stream[k], k, s.headerSize);
    JudgedMatches(s, i, base, now);
    var s1 := Judged(s, false, now).0;
    MatchesFinished(s1, InOrder(stream, k + 1, s.headerSize), base);
    SlotsAdvance(s.packets, k, stream, arrived);
    var r := Finished(s1, true);
    assert r.head == k + 1 && r.packets == s.packets[k := Done] && r.headerSize == s.headerSize;
    assert r.active && r.sector && !r.hung && !r.shutting;
  }

  lemma SlotsAdvance(m: Slots, k: nat, stream: seq<seq<byte>>, arrived: set<int>)
    requires SlotsFollow(m, k, stream, arrived)
    ensures SlotsFollow(m[k := Done], k + 1, stream, arrived)
  {
    var m' := m[k := Done];
    forall j: nat | k + 1 <= j
      ensures match SlotAt(m', j)
              case Held(payload) => j in arrived && j < |stream| && payload == stream[j]
              case Done => false
              case _ => j !in arrived
    {
      assert SlotAt(m', j) == SlotAt(m, j);
    }
  }

  lemma MatchesFinished(s: State, i: Ideal, base: Base)
    requires Matches(s, i, base)
    ensures Matches(Finished(s, true), i, base)
  {
  }

  lemma {:induction false} DrainLoopFollows(s: State, stream: seq<seq<byte>>, arrived: set<int>, base: Base, now: int)
    requires Follows(s, stream, arrived, base) && CalmStream(stream, s.headerSize)
    ensures var (r, toEnd) := DrainLoop(s, false, now);
      && toEnd && Follows(r, stream, arrived, base) && r.headerSize == s.headerSize
      && r.head !in arrived && r.head in r.packets
    decreases HeldKeys(s.packets)
  {
    hide Process, InOrder, Matches;
    var s0 := s.(packets := Touched(s.packets, Key(s.head)));
    assert HeldKeys(s0.packets) == HeldKeys(s.packets);
    assert forall k: nat :: SlotAt(s0.packets, k) == SlotAt(s.packets, k);
    MatchesSlots(s, s0, InOrder(stream, s.head, s.headerSize), base);
    if HeadHeld(s0) {
      ProcessFollows(s0, stream, arrived, base, now);
      ProcessReleases(s0, false, now);
      DrainLoopFollows(Process(s0, false, now).0, stream, arrived, base, now);
    } else {
      assert SlotAt(s0.packets, s.head) == s0.packets[s.head];
    }
  }

  lemma MatchesSlots(s: State, s1: State, i: Ideal, base: Base)
    requires Matches(s, i, base) && s1 == s.(packets := s1.packets, waits := s1.waits, nacks := s1.nacks,
      drops := s1.drops, packetTimer := s1.packetTimer, resendAt := s1.resendAt)
    ensures Matches(s1, i, base)
  {
  }

  /** Pruning never touches the head or anything ahead of it. */
  lemma {:induction false} PrunedKeeps(m: Slots, h: nat, k: nat)
    requires h in m && h < 0x8000_0000_0000_0000 && h <= k && k in m
    ensures k in Pruned(m, h)
    decreases |m|
  {
    var first := Least(m.Keys);
    assert first <= h;
    if (first + KEPT_BEHIND) % KEY_SPACE < h {
      assert (first + KEPT_BEHIND) % KEY_SPACE == first + KEPT_BEHIND;
      PrunedKeeps(m - {first}, h, k);
    }
  }

  lemma DrainedFollows(s: State, stream: seq<seq<byte>>, arrived: set<int>, base: Base, now: int)
    requires Follows(s, stream, arrived, base) && CalmStream(stream, s.headerSize)
    ensures var r := Drained(s, false, now);
      Follows(r, stream, arrived, base) && r.headerSize == s.headerSize && r.head !in arrived
  {
    hide DrainLoop, InOrder, Matches, Pruned;
    DrainLoopFollows(s, stream, arrived, base, now);
    var s1 := DrainLoop(s, false, now).0;
    var pruned := Pruned(s1.packets, s1.head);
    MatchesSlots(s1, s1.(packets := pruned), InOrder(stream, s1.head, s1.headerSize), base);
    forall k: nat | s1.head <= k
      ensures SlotAt(pruned, k) == SlotAt(s1.packets, k)
    {
      if k in s1.packets {
        PrunedKeeps(s1.packets, s1.head, k);
      }
    }
  }

  // ----- Events -----

  /** The step would skip the head. */
  predicate GivesUp(s: State, e: Event) {
    match e
    case Arrive(seqNo, _, _, _) =>
      s.head < seqNo <= s.head + WINDOW && s.waits + 1 > MAX_WAITS
      && SlotAt(s.packets, Key(s.head)) in {Blank, ReRequested}
    case Pump(now) =>
      s.loginComplete && s.active && Outstanding(s) && s.waits + 1 > MAX_WAITS
      && now - s.resendAt >= RESEND_INTERVAL && SlotAt(s.packets, Key(s.head)) in {Blank, ReRequested}
    case _ => false
  }

  /** A 0x2016 datagram other than the first, or a timer tick. From sequence `from` on, datagrams carry the data of the
      stream; what older ones carry is of no account. */
  predicate FromStream(e: Event, stream: seq<seq<byte>>, from: nat) {
    match e
    case Arrive(seqNo, payload, continuation, _) =>
      0 < seqNo < |stream| && (from <= seqNo ==> payload == stream[seqNo]) && !continuation
    case Pump(_) => true
    case _ => false
  }

  function Arrivals(es: seq<Event>): set<int> {
    if es == [] then {}
    else
      var e := es[|es| - 1];
      Arrivals(es[..|es| - 1]) + if e.Arrive? then {e.seqNo} else {}
  }

  lemma StoredFollows(s: State, k: nat, payload: seq<byte>, stream: seq<seq<byte>>, arrived: set<int>, base: Base)
    requires Follows(s, stream, arrived, base) && k < |stream| && (s.head <= k ==> payload == stream[k])
    ensures Follows(s.(packets := s.packets[k := Held(payload)]), stream, arrived + {k}, base)
  {
    hide InOrder, Matches;
    var s1 := s.(packets := s.packets[k := Held(payload)]);
    MatchesSlots(s, s1, InOrder(stream, s.head, s.headerSize), base);
    assert forall j: nat :: j != k ==> SlotAt(s1.packets, j) == SlotAt(s.packets, j);
  }

  /** Marking a missing head, or counting a wait, disturbs nothing. */
  lemma WaitingFollows(s: State, r: State, stream: seq<seq<byte>>, arrived: set<int>, base: Base)
    requires Follows(s, stream, arrived, base) && s.head !in arrived
    requires r == s.(packets := r.packets, waits := r.waits, nacks := r.nacks, drops := r.drops,
                     packetTimer := r.packetTimer, resendAt := r.resendAt)
    requires r.packets == Touched(s.packets, s.head) || r.packets == Touched(s.packets, s.head)[s.head := ReRequested]
    ensures Follows(r, stream, arrived, base)
  {
    hide InOrder, Matches;
    MatchesSlots(s, r, InOrder(stream, s.head, s.headerSize), base);
    assert forall j: nat :: j != s.head ==> SlotAt(r.packets, j) == SlotAt(s.packets, j);
    assert SlotAt(s.packets, s.head) in {Blank, ReRequested};
  }

  lemma EarlyFollows(s: State, seqNo: nat, stream: seq<seq<byte>>, arrived: set<int>, base: Base, now: int)
    requires Follows(s, stream, arrived, base) && CalmStream(stream, s.headerSize) && s.head !in arrived
    requires s.waits + 1 <= MAX_WAITS
    ensures var r := Early(s, false, now);
      Follows(r, stream, arrived, base) && r.headerSize == s.headerSize && r.head !in arrived
  {
    hide Drained, Follows;
    var s1 := s.(waits := s.waits + 1, packets := Touched(s.packets, Key(s.head)));
    assert s.head >= 0 && SlotAt(s.packets, s.head) in {Blank, ReRequested} by { HeadMissing(s, stream, arrived, base); }
    WaitingFollows(s, s1, stream, arrived, base);
    if SlotAt(s.packets, s.head) == Blank {
      WaitingFollows(s, Early(s, false, now), stream, arrived, base);
    } else {
      DrainedFollows(s1, stream, arrived, base, now);
    }
  }

  lemma HeadMissing(s: State, stream: seq<seq<byte>>, arrived: set<int>, base: Base)
    requires Follows(s, stream, arrived, base) && s.head !in arrived
    ensures s.head >= 0 && SlotAt(s.packets, s.head) in {Blank, ReRequested}
  {
  }

  lemma ArrivedFollows(s: State, k: nat, payload: seq<byte>, stream: seq<seq<byte>>, arrived: set<int>, base: Base, now: int)
    requires Follows(s, stream, arrived, base) && CalmStream(stream, s.headerSize) && s.head !in arrived
    requires 0 < k < |stream| && (s.head <= k ==> payload == stream[k]) && !GivesUp(s, Arrive(k, payload, false, now))
    ensures var r := Arrived(s, k, payload, false, now);
      Follows(r, stream, arrived + {k}, base) && r.headerSize == s.headerSize && r.head !in arrived + {k}
  {
    hide Drained, Early, Follows;
    HeadMissing(s, stream, arrived, base);
    assert s.active by { FollowsActive(s, stream, arrived, base); }
    var s2 := s.(packets := s.packets[Key(k) := Held(payload)]);
    StoredFollows(s, k, payload, stream, arrived, base);
    if k > s.head + WINDOW {
    } else if k > s.head {
      EarlyFollows(s2, k, stream, arrived + {k}, base, now);
    } else {
      DrainedFollows(s2, stream, arrived + {k}, base, now);
    }
  }

  lemma FollowsActive(s: State, stream: seq<seq<byte>>, arrived: set<int>, base: Base)
    requires Follows(s, stream, arrived, base)
    ensures s.active && !s.hung
  {
  }

  lemma PumpedFollows(s: State, stream: seq<seq<byte>>, arrived: set<int>, base: Base, now: int)
    requires Follows(s, stream, arrived, base) && s.head !in arrived && !GivesUp(s, Pump(now))
    ensures var r := Pumped(s, now);
      Follows(r, stream, arrived, base) && r.headerSize == s.headerSize && r.head !in arrived
  {
    hide Drained, HoleSize, Follows;
    HeadMissing(s, stream, arrived, base);
    var r := Pumped(s, now);
    if r != s {
      assert r.head == s.head;
      WaitingFollows(s, r, stream, arrived, base);
    }
  }

  /** Every step of the run keeps following the ideal receiver. */
  lemma StepFollows(s: State, e: Event, stream: seq<seq<byte>>, from: nat, arrived: set<int>, base: Base)
    requires Follows(s, stream, arrived, base) && CalmStream(stream, s.headerSize) && s.head !in arrived
    requires Legal(e) && FromStream(e, stream, from) && from <= s.head && !GivesUp(s, e)
    ensures var r := Step(s, e);
      var arrived' := arrived + if e.Arrive? then {e.seqNo} else {};
      Follows(r, stream, arrived', base) && r.headerSize == s.headerSize && r.head !in arrived' && s.head <= r.head
  {
    hide Arrived, Pumped, Follows, GivesUp;
    FollowsActive(s, stream, arrived, base);
    match e {
      case Arrive(seqNo, payload, _, now) => ArrivedFollows(s, seqNo, payload, stream, arrived, base, now);
      case Pump(now) =>
        PumpedFollows(s, stream, arrived, base, now);
        assert arrived + {} == arrived;
    }
    HeadAdvances(s, Step(s, e), stream, arrived, arrived + if e.Arrive? then {e.seqNo} else {}, base);
  }

  /** Everything below the old head had arrived, so the new head is not there. */
  lemma HeadAdvances(s: State, r: State, stream: seq<seq<byte>>, arrived: set<int>, arrived': set<int>, base: Base)
    requires Follows(s, stream, arrived, base) && Follows(r, stream, arrived', base) && arrived <= arrived'
    requires r.head !in arrived'
    ensures s.head <= r.head
  {
  }

  /** The arrival of sequence 0 opens an epoch that follows the ideal receiver from scratch. */
  lemma EpochOpens(s: State, stream: seq<seq<byte>>, now: int)
    requires s.splitLen == 0 && s.active && s.sector && !s.hung && !s.shutting
    requires CalmStream(stream, s.headerSize) && 0 < |stream|
    ensures var r := Arrived(s, 0, stream[0], false, now);
      Follows(r, stream, {0}, Base(s.log, [])) && r.headerSize == s.headerSize && r.head !in {0}
  {
    hide Drained;
    var s2 := Reset(s).(packets := map[0 := Held(stream[0])]);
    assert s.log + [] == s.log;
    assert Follows(s2, stream, {0}, Base(s.log, []));
    DrainedFollows(s2, stream, {0}, Base(s.log, []), now);
  }

  ghost predicate QuietRun(s: State, es: seq<Event>, stream: seq<seq<byte>>, from: nat)
  {
    && (forall i :: 0 <= i < |es| ==> Legal(es[i]) && FromStream(es[i], stream, from))
    && (forall i :: 0 <= i < |es| ==> !GivesUp(RunOf(s, es[..i]), es[i]))
  }

  lemma {:induction false} RunFollows(s: State, es: seq<Event>, stream: seq<seq<byte>>, from: nat, arrived: set<int>, base: Base)
    requires Follows(s, stream, arrived, base) && CalmStream(stream, s.headerSize) && s.head !in arrived && from <= s.head
    requires QuietRun(s, es, stream, from)
    ensures var r := RunOf(s, es);
      && Follows(r, stream, arrived + Arrivals(es), base) && r.headerSize == s.headerSize
      && r.head !in arrived + Arrivals(es) && s.head <= r.head
  {
    hide Step, Follows, GivesUp, FromStream;
    if es == [] {
      assert arrived + {} == arrived;
    } else {
      var init, e := es[..|es| - 1], es[|es| - 1];
      assert forall i :: 0 <= i < |init| ==> init[..i] == es[..i] && init[i] == es[i];
      RunFollows(s, init, stream, from, arrived, base);
      StepFollows(RunOf(s, init), e, stream, from, arrived + Arrivals(init), base);
      var one := if e.Arrive? then {e.seqNo} else {};
      assert arrived + Arrivals(init) + one == arrived + Arrivals(es);
    }
  }

  /** The main result. An epoch of 0x2016 packets, opened with no split in flight, whose walks all pass
      quietly: after any arrivals in any order with any duplicates, and any timer ticks, as long as no head
      is skipped, the head is the first sequence that has not arrived, and the client has been sent and the epoch has
      committed exactly what the ideal receiver does for the packets below it. */
  lemma OrderInsensitive(s: State, stream: seq<seq<byte>>, now: int, es: seq<Event>)
    requires s.splitLen == 0 && s.active && s.sector && !s.hung && !s.shutting
    requires CalmStream(stream, s.headerSize) && 0 < |stream| && Legal(Arrive(0, stream[0], false, now))
    requires QuietRun(Step(s, Arrive(0, stream[0], false, now)), es, stream, 0)
    ensures var r := RunOf(Step(s, Arrive(0, stream[0], false, now)), es);
      var arrived := {0} + Arrivals(es);
      && 0 <= r.head <= |stream| && r.head !in arrived
      && (forall k :: 0 <= k < r.head ==> k in arrived)
      && r.log == s.log + InOrder(stream, r.head, s.headerSize).log
      && r.commits == InOrder(stream, r.head, s.headerSize).commits
  {
    hide Arrived, QuietRun, InOrder;
    EpochOpens(s, stream, now);
    RunFollows(Step(s, Arrive(0, stream[0], false, now)), es, stream, 0, {0}, Base(s.log, []));
  }

  /** Two such runs with the same arrivals leave the client with the same log. */
  lemma SameArrivalsSameLog(s: State, stream: seq<seq<byte>>, now: int, es: seq<Event>, now': int, es': seq<Event>)
    requires s.splitLen == 0 && s.active && s.sector && !s.hung && !s.shutting
    requires CalmStream(stream, s.headerSize) && 0 < |stream| && Legal(Arrive(0, stream[0], false, now))
    requires QuietRun(Step(s, Arrive(0, stream[0], false, now)), es, stream, 0)
    requires QuietRun(Step(s, Arrive(0, stream[0], false, now')), es', stream, 0)
    requires {0} + Arrivals(es) == {0} + Arrivals(es')
    ensures var r := RunOf(Step(s, Arrive(0, stream[0], false, now)), es);
      var r' := RunOf(Step(s, Arrive(0, stream[0], false, now')), es');
      r.head == r'.head && r.log == r'.log && r.commits == r'.commits
  {
    hide Step, QuietRun, InOrder;
    OrderInsensitive(s, stream, now, es);
    OrderInsensitive(s, stream, now', es');
  }
}
