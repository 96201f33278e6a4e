/** Termination on a quiet network: with no more arrivals, timer pumps settle in finitely many steps, even
    though a failed split moves the head backwards. */
module ReassemblerQuiet {
  import opened Bytes
  import opened PacketWalk
  import opened Reassembler
  import opened ReassemblerSafety

  /** The stream is over for the pump: a walk hung, the epoch ended, or the connection went inactive. */
  predicate Ended(s: State) { s.hung || !s.clean || !s.active }

  /** The pump has something to do and may do it now. */
  ghost predicate Pumping(s: State, now: int) {
    Inv(s) && !Ended(s) && s.loginComplete && Outstanding(s) && now - s.resendAt >= RESEND_INTERVAL
  }

  function Newest(m: Slots): nat
    requires m != map[]
  {
    Greatest(m.Keys)
  }

  /** Sequences between the head and the newest stored one. */
  function Gap(s: State): nat
    requires 0 <= s.head
  {
    if Outstanding(s) then Newest(s.packets) - s.head else 0
  }

  function Retries(s: State): nat { if s.waits <= MAX_WAITS then (1 + MAX_WAITS - s.waits) as nat else 0 }

  /** The lexicographic measure goes down: datagrams held, then the gap, then the retries left. */
  ghost predicate Descends(s: State, r: State)
    requires 0 <= s.head && 0 <= r.head
  {
    || HeldKeys(r.packets) < HeldKeys(s.packets)
    || (HeldKeys(r.packets) == HeldKeys(s.packets) && Gap(r) < Gap(s))
    || (HeldKeys(r.packets) == HeldKeys(s.packets) && Gap(r) == Gap(s) && Retries(r) < Retries(s))
  }

  // ----- The drain consumes -----

  lemma CompletedConsumes(s: State, now: int)
    requires HeadHeld(s) && s.clean && 0 <= s.splitStart <= s.head
    ensures var (s1, v) := Completed(s, now);
      v == Return ==> s1.hung || HeldKeys(s1.packets) < HeldKeys(s.packets)
  {
    hide WalkHere;
    var (s1, v) := Walked(s.(splitLen := 0), WalkHere(s, s.splitBuf));
    if v == Fail && 0 <= s1.head {
      var r := RolledBack(s1, now);
      assert s1.packets == s.packets && s1.head == s.head;
      assert Key(s.head) in HeldKeys(s.packets) && Key(s.head) !in HeldKeys(r.packets);
      assert HeldKeys(r.packets) <= HeldKeys(s.packets);
    }
  }

  lemma ProcessConsumes(s: State, continuation: bool, now: int)
    requires Inv(s) && s.clean && HeadHeld(s)
    ensures var r := Process(s, continuation, now).0; r.hung || HeldKeys(r.packets) < HeldKeys(s.packets)
  {
    hide Opening, Completed;
    if Process(s, continuation, now).1 {
      ProcessReleases(s, continuation, now);
    } else {
      var payload := s.packets[Key(s.head)].payload;
      OpeningReturns(s, payload, continuation);
      if s.splitLen > 0 {
        CompletedConsumes(s.(splitBuf := s.splitBuf + payload, splitLen := s.splitLen - |payload|), now);
      }
    }
  }

  lemma OpeningReturns(s: State, payload: seq<byte>, continuation: bool)
    ensures var (s1, v) := Opening(s, payload, continuation); v == Return ==> s1.hung
  {
    hide WalkHere, FirstChunk, WordAt;
  }

  lemma {:induction false} DrainLoopConsumes(s: State, continuation: bool, now: int)
    requires Inv(s)
    ensures var r := DrainLoop(s, continuation, now).0;
      r.hung || !r.clean || (HeldKeys(r.packets) <= HeldKeys(s.packets)
                             && (HeadHeld(s) ==> HeldKeys(r.packets) < HeldKeys(s.packets)))
    decreases HeldKeys(s.packets)
  {
    hide Process, Inv;
    var s0 := s.(packets := Touched(s.packets, Key(s.head)));
    TouchedInv(s, Key(s.head));
    assert HeldKeys(s0.packets) == HeldKeys(s.packets);
    if HeadHeld(s0) {
      var (s1, more) := Process(s0, continuation, now);
      ProcessInv(s0, continuation, now);
      if s0.clean {
        ProcessConsumes(s0, continuation, now);
      } else {
        ProcessStaysUnclean(s0, continuation, now);
      }
      if more {
        ProcessReleases(s0, continuation, now);
        DrainLoopConsumes(s1, continuation, now);
      }
    }
  }

  lemma PrunedHeld(m: Slots, h: nat)
    ensures HeldKeys(Pruned(m, h)) <= HeldKeys(m)
  {
    hide Pruned;
  }

  lemma DrainedConsumes(s: State, continuation: bool, now: int)
    requires Inv(s)
    ensures var r := Drained(s, continuation, now);
      r.hung || !r.clean || (HeldKeys(r.packets) <= HeldKeys(s.packets)
                             && (HeadHeld(s) ==> HeldKeys(r.packets) < HeldKeys(s.packets)))
  {
    hide DrainLoop, Pruned;
    DrainLoopConsumes(s, continuation, now);
    var s1 := DrainLoop(s, continuation, now).0;
    PrunedHeld(s1.packets, Key(s1.head));
  }

  /** A drain that finds nothing at the head only creates its slot and prunes far behind it. */
  lemma DrainedIdle(s: State, continuation: bool, now: int)
    requires !HeadHeld(s)
    ensures Drained(s, continuation, now)
         == s.(packets := Pruned(Touched(s.packets, Key(s.head)), Key(s.head)))
  {
    hide Process, Pruned;
  }

  // ----- One pump -----

  lemma {:induction false} PrunedNewest(m: Slots, h: nat)
    requires h in m && h < KEY_SPACE - KEPT_BEHIND
    ensures h in Pruned(m, h) && Newest(Pruned(m, h)) == Newest(m)
    decreases |m|
  {
    var first := Least(m.Keys);
    if (first + KEPT_BEHIND) % KEY_SPACE < h {
      assert first < h;
      var m' := m - {first};
      assert Newest(m') == Newest(m) by {
        assert Newest(m) in m'.Keys;
      }
      PrunedNewest(m', h);
    }
  }

  lemma TouchedNewest(m: Slots, k: nat)
    requires m != map[] && k <= Newest(m)
    ensures Newest(Touched(m, k)) == Newest(m)
  {
    NewestWith(m, Touched(m, k), k);
  }

  lemma NewestWith(m: Slots, m': Slots, k: nat)
    requires m != map[] && k <= Newest(m) && m'.Keys == m.Keys + {k}
    ensures Newest(m') == Newest(m)
  {
    assert Newest(m) in m'.Keys && Newest(m') in m.Keys + {k};
  }

  lemma MarkDescends(s: State, now: int)
    requires Inv(s) && s.clean && Outstanding(s) && !HeadHeld(s) && s.waits < MAX_WAITS
    ensures var r := Retried(s, now);
      0 <= r.head && Descends(s, r) && r.resendAt <= now && r.loginComplete == s.loginComplete
  {
    hide HoleSize;
    var r := Retried(s, now);
    assert HeldKeys(r.packets) == HeldKeys(s.packets);
    MarkedNewest(s.packets, s.head);
    assert Newest(r.packets) == Newest(s.packets);
  }

  lemma MarkedNewest(m: Slots, k: nat)
    requires m != map[] && k < Newest(m)
    ensures Newest(m[k := ReRequested]) == Newest(m)
  {
    NewestWith(m, m[k := ReRequested], k);
  }

  lemma SkipDescends(s: State, now: int)
    requires Inv(s) && s.clean && Outstanding(s) && !HeadHeld(s) && s.head + 1 < KEY_SPACE - KEPT_BEHIND
    ensures var r := Drained(GivenUp(s.(waits := s.waits + 1)), false, now);
      r.hung || !r.clean || (0 <= r.head && Descends(s, r))
  {
    hide Drained, Inv;
    var s1 := GivenUp(s.(waits := s.waits + 1));
    SkipInv(s);
    assert s.head >= 0 by { CleanHead(s); }
    DrainedInv(s1, false, now);
    DrainedConsumes(s1, false, now);
    var r := Drained(s1, false, now);
    if r.clean {
      CleanHead(r);
    }
    if !HeadHeld(s1) {
      DrainedIdle(s1, false, now);
      IdleGap(s, r);
    }
  }

  /** Skipping one missing sequence and finding nothing behind it narrows the gap by one. */
  lemma IdleGap(s: State, r: State)
    requires 0 <= s.head && Outstanding(s) && s.head + 1 < KEY_SPACE - KEPT_BEHIND
    requires r.head == s.head + 1 && r.packets == Pruned(Touched(s.packets, s.head + 1), s.head + 1)
    ensures Gap(r) < Gap(s)
  {
    hide Pruned;
    TouchedNewest(s.packets, s.head + 1);
    PrunedNewest(Touched(s.packets, s.head + 1), s.head + 1);
  }

  /** Each pump with something to do decreases the measure, unless a walk ends the stream. */
  lemma PumpDescends(s: State, now: int)
    requires Pumping(s, now) && s.head + 1 < KEY_SPACE - KEPT_BEHIND
    ensures 0 <= s.head
    ensures var r := Pumped(s, now); Ended(r) || (0 <= r.head && Descends(s, r))
  {
    hide Drained, HoleSize, Retried;
    CleanHead(s);
    var s1 := s.(packets := Touched(s.packets, Key(s.head)));
    assert HeldKeys(s1.packets) == HeldKeys(s.packets);
    TouchedInv(s, Key(s.head));
    TouchedNewest(s.packets, s.head);
    assert Gap(s1) == Gap(s);
    PumpedInv(s, now);
    var r := Pumped(s, now);
    if r.clean {
      CleanHead(r);
    }
    if HeadHeld(s1) {
      DrainedConsumes(s1, false, now);
    } else {
      RetriedDescends(s1, now);
    }
  }

  lemma RetriedDescends(s: State, now: int)
    requires Inv(s) && s.clean && Outstanding(s) && !HeadHeld(s) && s.head + 1 < KEY_SPACE - KEPT_BEHIND
    ensures 0 <= s.head
    ensures var r := Retried(s, now); r.hung || !r.clean || (0 <= r.head && Descends(s, r))
  {
    hide Drained, Inv;
    CleanHead(s);
    if s.waits < MAX_WAITS {
      MarkDescends(s, now);
    } else {
      SkipDescends(s, now);
    }
  }

  // ----- Side conditions of the next pump -----

  /** The resend clock moves to the pump's time at most, and login stays complete. */
  ghost predicate ClockKept(s: State, r: State, now: int) {
    (r.resendAt == s.resendAt || r.resendAt == now) && (s.loginComplete ==> r.loginComplete)
  }

  lemma ProcessClock(s: State, continuation: bool, now: int)
    requires HeadHeld(s)
    ensures ClockKept(s, Process(s, continuation, now).0, now)
  {
    hide Judged;
    JudgedClock(s, continuation, now);
  }

  lemma JudgedClock(s: State, continuation: bool, now: int)
    requires HeadHeld(s)
    ensures ClockKept(s, Judged(s, continuation, now).0, now)
  {
    hide Opening, Completed;
    var payload := s.packets[Key(s.head)].payload;
    OpeningClock(s, payload, continuation, now);
    CompletedClock(s.(splitBuf := s.splitBuf + payload, splitLen := s.splitLen - |payload|), now);
  }

  lemma OpeningClock(s: State, payload: seq<byte>, continuation: bool, now: int)
    ensures ClockKept(s, Opening(s, payload, continuation).0, now)
  {
    hide WalkHere, FirstChunk, WordAt, StartsSplit, Walked;
    WalkedClock(s, WalkHere(s, payload), now);
  }

  lemma WalkedClock(s: State, w: Walk, now: int)
    ensures ClockKept(s, Walked(s, w).0, now)
  {
  }

  lemma CompletedClock(s: State, now: int)
    ensures ClockKept(s, Completed(s, now).0, now)
  {
    hide WalkHere, Walked, RolledBack;
    WalkedClock(s.(splitLen := 0), WalkHere(s, s.splitBuf), now);
    RolledBackClock(Walked(s.(splitLen := 0), WalkHere(s, s.splitBuf)).0, now);
  }

  lemma RolledBackClock(s: State, now: int)
    ensures var r := RolledBack(s, now); (r.resendAt == s.resendAt || r.resendAt == now) && r.loginComplete == s.loginComplete
  {
  }

  lemma {:induction false} DrainLoopClock(s: State, continuation: bool, now: int)
    ensures ClockKept(s, DrainLoop(s, continuation, now).0, now)
    decreases HeldKeys(s.packets)
  {
    hide Process;
    var s0 := s.(packets := Touched(s.packets, Key(s.head)));
    assert HeldKeys(s0.packets) == HeldKeys(s.packets);
    if HeadHeld(s0) {
      ProcessClock(s0, continuation, now);
      if Process(s0, continuation, now).1 {
        ProcessReleases(s0, continuation, now);
        DrainLoopClock(Process(s0, continuation, now).0, continuation, now);
      }
    }
  }

  lemma PumpedClock(s: State, now: int)
    ensures ClockKept(s, Pumped(s, now), now)
  {
    hide DrainLoop, Pruned, HoleSize;
    var s1 := s.(packets := Touched(s.packets, Key(s.head)));
    DrainLoopClock(s1, false, now);
    DrainLoopClock(GivenUp(s1.(waits := s1.waits + 1)), false, now);
  }

  // ----- The pumps settle -----

  /** `n` pumps from tick `i` of the clock. */
  function PumpRun(s: State, clock: int -> int, i: int, n: nat): State
    decreases n
  {
    if n == 0 then s else PumpRun(Pumped(s, clock(i)), clock, i + 1, n - 1)
  }

  ghost predicate Ticking(clock: int -> int) { forall i :: clock(i) + RESEND_INTERVAL <= clock(i + 1) }

  const LONG_END: nat := 0x8000_0000_0000_0000

  /** The head is a C `long` and the stream goes on. */
  predicate Running(s: State) { !Ended(s) && s.head < LONG_END }

  ghost predicate RunningAt(s: State, clock: int -> int, i: int, m: nat) { Running(PumpRun(s, clock, i, m)) }

  /** The stream runs through the first `n` pumps. */
  ghost predicate RunsFor(s: State, clock: int -> int, i: int, n: nat) {
    forall m: nat :: m < n ==> RunningAt(s, clock, i, m)
  }

  /** After `n` pumps nothing newer than the head is left. */
  ghost predicate RestsAt(s: State, clock: int -> int, i: int, n: nat) {
    RunsFor(s, clock, i, n) && Running(PumpRun(s, clock, i, n)) && !Outstanding(PumpRun(s, clock, i, n))
  }

  /** The walk of the `n`th pump ends the stream. */
  ghost predicate EndsAt(s: State, clock: int -> int, i: int, n: nat) {
    RunsFor(s, clock, i, n) && Ended(PumpRun(s, clock, i, n))
  }

  lemma NextRuns(s: State, clock: int -> int, i: int, n: nat)
    requires Running(s)
    ensures PumpRun(s, clock, i, n + 1) == PumpRun(Pumped(s, clock(i)), clock, i + 1, n)
    ensures RunsFor(Pumped(s, clock(i)), clock, i + 1, n) <==> RunsFor(s, clock, i, n + 1)
    ensures RestsAt(Pumped(s, clock(i)), clock, i + 1, n) <==> RestsAt(s, clock, i, n + 1)
    ensures EndsAt(Pumped(s, clock(i)), clock, i + 1, n) <==> EndsAt(s, clock, i, n + 1)
  {
    hide Pumped, Running, Ended;
    var r := Pumped(s, clock(i));
    if RunsFor(r, clock, i + 1, n) {
      forall m: nat | m < n + 1
        ensures RunningAt(s, clock, i, m)
      {
        if m > 0 {
          assert RunningAt(r, clock, i + 1, m - 1);
          assert PumpRun(s, clock, i, m) == PumpRun(r, clock, i + 1, m - 1);
        }
      }
    }
    if RunsFor(s, clock, i, n + 1) {
      var j := i + 1;
      forall m: nat | m < n
        ensures RunningAt(r, clock, j, m)
      {
        assert RunningAt(s, clock, i, m + 1);
        assert PumpRun(s, clock, i, m + 1) == PumpRun(r, clock, i + 1, m);
      }
    }
  }

  /** What the pump needs of a state to be sure to come to rest. */
  ghost predicate Restable(s: State, b: nat) {
    Inv(s) && !Ended(s) && s.loginComplete && Bounded(s, b) && b < LONG_END - 1
  }

  lemma RestableRuns(s: State, b: nat)
    requires Restable(s, b)
    ensures Running(s) && 0 <= s.head && s.head + 1 < KEY_SPACE - KEPT_BEHIND
  {
  }

  lemma PumpedRestable(s: State, now: int, b: nat)
    requires Restable(s, b)
    ensures var r := Pumped(s, now); Ended(r) || Restable(r, b)
  {
    hide Inv, Pumped, Bounded;
    PumpedInv(s, now);
    PumpedBounded(s, now, b);
    PumpedClock(s, now);
  }

  lemma {:induction false} SettlesBounded(s: State, clock: int -> int, i: int, b: nat) returns (n: nat)
    requires Restable(s, b) && clock(i) - s.resendAt >= RESEND_INTERVAL && Ticking(clock)
    ensures 0 <= s.head
    ensures RestsAt(s, clock, i, n) || EndsAt(s, clock, i, n)
    decreases HeldKeys(s.packets), if s.head >= 0 then Gap(s) else 0, Retries(s)
  {
    hide Inv, Pumped, Gap, Retries, Bounded, Outstanding;
    RestableRuns(s, b);
    if !Outstanding(s) {
      assert PumpRun(s, clock, i, 0) == s;
      return 0;
    }
    var now := clock(i);
    var r := Pumped(s, now);
    PumpDescends(s, now);
    PumpedRestable(s, now, b);
    if Ended(r) {
      assert PumpRun(r, clock, i + 1, 0) == r;
      NextRuns(s, clock, i, 0);
      return 1;
    }
    PumpedClock(s, now);
    var m := SettlesBounded(r, clock, i + 1, b);
    NextRuns(s, clock, i, m);
    n := m + 1;
  }

  // ----- A stored negative sequence -----

  /** Walks and marks take no key away, unless the epoch ends. */
  lemma ProcessKeepsKeys(s: State, continuation: bool, now: int)
    requires Inv(s) && s.clean && HeadHeld(s)
    ensures var r := Process(s, continuation, now).0; r.clean ==> s.packets.Keys <= r.packets.Keys
  {
    hide Judged, Inv;
    JudgedKeepsKeys(s, continuation, now);
  }

  lemma JudgedKeepsKeys(s: State, continuation: bool, now: int)
    requires Inv(s) && s.clean && HeadHeld(s)
    ensures var s1 := Judged(s, continuation, now).0; s1.clean ==> s.packets.Keys <= s1.packets.Keys
  {
    hide Opening, Completed;
    var payload := s.packets[Key(s.head)].payload;
    OpeningBounded(s, payload, continuation);
    if s.splitLen > 0 {
      CompletedKeepsKeys(s.(splitBuf := s.splitBuf + payload, splitLen := s.splitLen - |payload|), now);
    }
  }

  lemma CompletedKeepsKeys(s: State, now: int)
    requires s.clean && 0 <= s.splitStart <= s.head
    ensures var s1 := Completed(s, now).0; s1.clean ==> s.packets.Keys <= s1.packets.Keys
  {
    hide WalkHere, Walked;
    var s0, w := s.(splitLen := 0), WalkHere(s, s.splitBuf);
    WalkedClean(s0, w);
    RolledBackClean(Walked(s0, w).0, now);
  }

  lemma {:induction false} DrainLoopKeepsKeys(s: State, continuation: bool, now: int)
    requires Inv(s) && s.clean
    ensures var (r, toEnd) := DrainLoop(s, continuation, now);
      r.clean ==> s.packets.Keys <= r.packets.Keys && (toEnd ==> Key(r.head) in r.packets)
    decreases HeldKeys(s.packets)
  {
    hide Process, Inv;
    var s0 := s.(packets := Touched(s.packets, Key(s.head)));
    TouchedInv(s, Key(s.head));
    assert HeldKeys(s0.packets) == HeldKeys(s.packets);
    if HeadHeld(s0) {
      var (s1, more) := Process(s0, continuation, now);
      ProcessInv(s0, continuation, now);
      ProcessKeepsKeys(s0, continuation, now);
      if more {
        ProcessReleases(s0, continuation, now);
        if s1.clean {
          DrainLoopKeepsKeys(s1, continuation, now);
        } else {
          DrainLoopStaysUnclean(s1, continuation, now);
        }
      }
    }
  }

  /** Pruning starts at the front, so the head's slot protects every key beyond it. */
  lemma {:induction false} PrunedKeepsFar(m: Slots, h: nat, far: nat)
    requires h in m && far in m && h < far && h < LONG_END
    ensures far in Pruned(m, h)
    decreases |m|
  {
    var first := Least(m.Keys);
    assert first <= h;
    if (first + KEPT_BEHIND) % KEY_SPACE < h {
      assert (first + KEPT_BEHIND) % KEY_SPACE == first + KEPT_BEHIND;
      PrunedKeepsFar(m - {first}, h, far);
    }
  }

  lemma DrainedKeepsFar(s: State, continuation: bool, now: int, far: nat)
    requires Inv(s) && s.clean && far in s.packets && LONG_END <= far
    ensures var r := Drained(s, continuation, now); r.clean && r.head < LONG_END ==> far in r.packets
  {
    hide DrainLoop, Pruned, Inv;
    DrainLoopKeepsKeys(s, continuation, now);
    DrainLoopInv(s, continuation, now);
    var (s1, toEnd) := DrainLoop(s, continuation, now);
    if toEnd && s1.clean && s1.head < LONG_END {
      CleanHead(s1);
      PrunedKeepsFar(s1.packets, s1.head, far);
    }
  }

  lemma PumpedKeepsFar(s: State, now: int, far: nat)
    requires Inv(s) && s.clean && far in s.packets && LONG_END <= far
    ensures var r := Pumped(s, now); r.clean && r.head < LONG_END ==> far in r.packets
  {
    hide Drained, HoleSize, Inv;
    var s1 := s.(packets := Touched(s.packets, Key(s.head)));
    TouchedInv(s, Key(s.head));
    SkipInv(s1);
    DrainedKeepsFar(s1, false, now, far);
    DrainedKeepsFar(GivenUp(s1.(waits := s1.waits + 1)), false, now, far);
  }

  lemma FarOutstanding(s: State, far: nat)
    requires 0 <= s.head < LONG_END <= far && far in s.packets
    ensures Outstanding(s)
  {
    assert far <= Greatest(s.packets.Keys);
  }

  /** While a negative sequence is stored, which as a key lies beyond every head there can be, no number of pumps
      brings the stream to rest. */
  lemma {:induction false} NeverRests(s: State, clock: int -> int, i: int, n: nat, far: nat)
    requires Inv(s) && far in s.packets && LONG_END <= far
    ensures !RestsAt(s, clock, i, n)
    decreases n
  {
    hide Inv, Pumped, Outstanding, PumpRun;
    FirstPump(s, clock, i);
    if RestsAt(s, clock, i, n) {
      assert n > 0 ==> RunningAt(s, clock, i, 0);
      CleanHead(s);
      FarOutstanding(s, far);
      assert n > 0;
      var r := Pumped(s, clock(i));
      NextRuns(s, clock, i, n - 1);
      assert Running(PumpRun(r, clock, i + 1, n - 1));
      FirstPump(r, clock, i + 1);
      assert Running(r) by {
        assert n > 1 ==> RunningAt(r, clock, i + 1, 0);
      }
      PumpedInv(s, clock(i));
      PumpedKeepsFar(s, clock(i), far);
      NeverRests(r, clock, i + 1, n - 1, far);
    }
  }

  lemma FirstPump(s: State, clock: int -> int, i: int)
    ensures PumpRun(s, clock, i, 0) == s
  {
  }

  /** On a quiet network, from every state of an epoch, pumps at least the resend interval apart bring the stream to an
      end of some kind, nothing newer than the head left or the stream ended by a walk, if and only if no negative
      sequence is stored or a walk ends the stream. Excluded is the one key that only a head could count up to. */
  lemma QuietNetworkSettles(s: State, clock: int -> int)
    requires Inv(s) && Running(s) && s.loginComplete && clock(0) - s.resendAt >= RESEND_INTERVAL && Ticking(clock)
    requires s.head < LONG_END - 1 && LONG_END - 1 !in s.packets
    ensures (exists n: nat :: RestsAt(s, clock, 0, n) || EndsAt(s, clock, 0, n)) <==>
      (forall k :: k in s.packets ==> k < LONG_END) || exists n: nat :: EndsAt(s, clock, 0, n)
  {
    hide Inv, RestsAt, EndsAt;
    if forall k :: k in s.packets ==> k < LONG_END {
      RestableAtFirst(s);
      var n := SettlesBounded(s, clock, 0, LONG_END - 2);
    } else {
      var far :| far in s.packets && LONG_END <= far;
      forall n: nat
        ensures !RestsAt(s, clock, 0, n)
      {
        NeverRests(s, clock, 0, n, far);
      }
    }
  }

  lemma RestableAtFirst(s: State)
    requires Inv(s) && Running(s) && s.loginComplete && s.head < LONG_END - 1 && LONG_END - 1 !in s.packets
    requires forall k :: k in s.packets ==> k < LONG_END
    ensures Restable(s, LONG_END - 2)
  {
  }
}
