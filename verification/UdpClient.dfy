/** The proxy's UDP client object: the reliable stream's fields updated in place, each method proved against
    the step it performs. */
module UdpClient {
  import opened Bytes
  import opened PacketWalk
  import opened Reassembler

  class UDPClient {
    var packets: Slots
    var currentPacketNum: Position
    var packetTimeout: int
    var splitPacketLength: int
    var splitPacketStart: Position
    var splitPacketBuffer: seq<byte>
    var connectionActive: bool
    var loginComplete: bool
    var sectorConnection: bool
    var shuttingDown: bool
    var stuck: bool
    const headerSize: nat
    var packetDropThisSession: int
    var packetTimer: int
    var packetResendTimer: int
    var client: seq<Output>
    var resends: seq<Nack>
    ghost var commits: seq<int>
    ghost var clean: bool

    ghost function View(): State
      reads this
    {
      State(packets, currentPacketNum, packetTimeout, splitPacketLength, splitPacketStart, splitPacketBuffer,
            connectionActive, loginComplete, sectorConnection, shuttingDown, stuck, headerSize,
            packetDropThisSession, packetTimer, packetResendTimer, client, resends, commits, clean)
    }

    constructor (optimized: bool)
      ensures View() == Initial(if optimized then 1400 else 512)
    {
      packets, currentPacketNum, packetTimeout := map[], 0, 0;
      splitPacketLength, splitPacketStart, splitPacketBuffer := 0, 0, [];
      connectionActive, loginComplete, sectorConnection := false, false, false;
      shuttingDown, stuck := false, false;
      headerSize := if optimized then 1400 else 512;
      packetDropThisSession, packetTimer, packetResendTimer := 0, 0, 0;
      client, resends := [], [];
      commits, clean := [], true;
    }

    /** Login progress, which forgets the losses counted so far. */
    method SetLoginComplete(flag: bool)
      modifies this`loginComplete, this`packetDropThisSession
      ensures View() == old(View()).(loginComplete := flag, drops := 0)
    {
      loginComplete := flag;
      packetDropThisSession := 0;
    }

    // ----- The inner walk -----

    /** Reacts to log-off, hand-off and start. A hand-off empties the slot map and forgets the position. */
    method IncommingOpcodePreProcessing(opcode: int)
      modifies this
      ensures View() == Applied(old(View()), Preprocessed(WalkSoFar(old(shuttingDown)), opcode))
    {
      if opcode == 0x00BA {
        connectionActive := false;
      } else if opcode == 0x003A {
        HandOff();
      } else if opcode == 0x0005 {
        SetLoginComplete(true);
      }
      assert old(client) + [] == old(client);
    }

    /** Moves to another server: the stream is abandoned. */
    method HandOff()
      modifies this`connectionActive, this`packets, this`currentPacketNum, this`clean
      ensures View() == old(View()).(active := false, packets := map[], head := -1, clean := false)
    {
      connectionActive := false;
      packets := map[];
      currentPacketNum := -1;
      clean := false;
    }

    /** A walk that has done nothing yet. */
    static function WalkSoFar(shutting: bool): Walk { Walk(Passed, [], false, false, false, shutting) }

    /** Dispatches one inner frame; false if its opcode is refused. */
    method DispatchFrame(opcode: int, length: int, payload: seq<byte>) returns (accepted: bool)
      modifies this
      ensures var w := Dispatched(WalkSoFar(old(shuttingDown)), opcode, length, payload);
        View() == Applied(old(View()), w) && accepted == (w.ending != Refused)
    {
      hide SilentlyConsumed, HandledHere, Preprocessed, Applied;
      ghost var s, none := View(), WalkSoFar(shuttingDown);
      AppliedNothing(s);
      AppliedOutput(s, none, Handled(opcode, payload));
      accepted := true;
      if opcode == 0x001B && length < 8 {
      } else if opcode in SilentlyConsumed() {
      } else if opcode == 0x100A {
        shuttingDown := true;
      } else if opcode in HandledHere() {
        client := client + [Handled(opcode, payload)];
      } else if 0 < opcode <= 0xFE {
        ForwardGameFrame(opcode, length, payload);
        PreprocessingPasses(none, opcode);
      } else {
        accepted := false;
      }
    }

    /** A game frame goes to the client if it is neither short nor oversized. */
    method ForwardGameFrame(opcode: int, length: int, payload: seq<byte>)
      modifies this
      ensures var w := Preprocessed(WalkSoFar(old(shuttingDown)), opcode);
        View() == Applied(old(View()),
                          if 4 <= length <= MAX_FRAME then w.(out := w.out + [Forward(opcode, payload)]) else w)
    {
      hide Preprocessed, Applied;
      AppliedOutput(View(), Preprocessed(WalkSoFar(shuttingDown), opcode), Forward(opcode, payload));
      IncommingOpcodePreProcessing(opcode);
      if 4 <= length <= MAX_FRAME {
        client := client + [Forward(opcode, payload)];
      }
    }

    /** Walks the inner frames of a complete packet. `ending` is `Hung` where the original never returns. */
    method SendClientPacketSequence(buf: seq<byte>) returns (ending: Ending)
      modifies this
      ensures var w := WalkHere(old(View()), buf);
        ending == w.ending && View() == Walked(old(View()), w).0
    {
      hide FrameStep, Applied;
      ghost var s := View();
      if !sectorConnection {
        AppliedNothing(s);
        return Refused;
      }
      var index, more := 0, true;
      ghost var w := WalkSoFar(shuttingDown);
      ending := Passed;
      AppliedNothing(s);
      while more && index < AsShort(|buf|) && !shuttingDown
        invariant index <= |buf|
        invariant View() == Applied(s, w) && ending == w.ending
        invariant w.shutting == shuttingDown && (more ==> w.ending == Passed)
        invariant (if more then WalkFrom(buf, index, w) else w) == WalkOf(buf, s.shutting)
        decreases more, |buf| - index
      {
        ghost var w0, i0 := w, index;
        ending, index, more, w := WalkFrame(buf, index, s, w);
        assert WalkFrom(buf, i0, w0) == if more then WalkFrom(buf, index, w) else w;
      }
      AppliedFields(s, w);
      if ending == Hung {
        stuck := true;
      } else if ending == Passed {
        commits := commits + [s.head];
      }
    }

    /** One pass of the walk's loop. */
    method WalkFrame(buf: seq<byte>, index: nat, ghost s: State, ghost w: Walk)
      returns (ending: Ending, next: nat, more: bool, ghost w': Walk)
      requires index < AsShort(|buf|) && w.ending == Passed && w.shutting == shuttingDown
      requires View() == Applied(s, w)
      modifies this
      ensures (w', next, more) == FrameStep(buf, index, w)
      ensures View() == Applied(s, w') && ending == w'.ending && w'.shutting == shuttingDown
      ensures more ==> w'.ending == Passed
    {
      hide Applied;
      var length, opcode := AsShort(WordAt(buf, index)), AsShort(WordAt(buf, index + 2));
      if length > AsShort(|buf|) - index || length < 0 {
        return Passed, index, false, w;
      }
      var payload := PayloadAt(buf, index, length);
      DispatchComposes(s, w, opcode, length, payload);
      w' := Dispatched(w, opcode, length, payload);
      AppliedFields(s, w');
      var accepted := DispatchFrame(opcode, length, payload);
      if !accepted {
        return Refused, index, false, w';
      }
      if length == 0 {
        if shuttingDown {
          return Passed, index, false, w';
        }
        return Hung, index, false, w'.(ending := Hung);
      }
      return Passed, index + length, true, w';
    }

    // ----- Resend and drain -----

    method RequestResend(packetStart: int, packetCount: int, now: int)
      modifies this`resends, this`packetResendTimer
      ensures View() == Requested(old(View()), packetStart, packetCount, now)
    {
      resends := resends + [Nack(AsInt32(packetStart), AsInt32(packetCount))];
      packetResendTimer := now;
    }

    /** Marks every slot of a failed split, from its start to the head, as re-requested. */
    method MarkRange(lo: nat, hi: nat)
      modifies this`packets
      ensures packets == Marked(old(packets), lo, hi)
    {
      hide Marked;
      var i := lo;
      MarkedNone(packets, lo, lo - 1);
      if lo > hi {
        MarkedNone(packets, lo, hi);
      }
      while i <= hi
        invariant lo <= i && (i <= hi + 1 || i == lo)
        invariant packets == Marked(old(packets), lo, i - 1)
      {
        MarkedNext(old(packets), lo, i);
        packets := packets[i := ReRequested];
        i := i + 1;
      }
    }

    /** The split just completed but its walk was refused. */
    method RollBack(now: int)
      modifies this
      ensures View() == RolledBack(old(View()), now)
    {
      if currentPacketNum < 0 {
        stuck := true;
        return;
      }
      MarkRange(Key(splitPacketStart), currentPacketNum);
      var resendCount := currentPacketNum - splitPacketStart + 1;
      currentPacketNum := splitPacketStart;
      RequestResend(splitPacketStart, resendCount, now);
    }

    /** Decides on the datagram at the head: blank fill, split chunk, or one met with no split in flight. */
    method Judge(message: seq<byte>, continuation: bool, now: int) returns (verdict: Verdict)
      requires HeadHeld(View()) && packets[Key(currentPacketNum)] == Held(message)
      modifies this
      ensures (View(), verdict) == Judged(old(View()), continuation, now)
    {
      hide Opening, Continuing;
      if message == [] {
        if splitPacketLength != 0 {
          splitPacketLength := 0;
        }
        verdict := Pass;
      } else if splitPacketLength == 0 {
        verdict := OpenOrWalk(message, continuation);
      } else {
        verdict := TakeChunk(message, now);
      }
    }

    method OpenOrWalk(message: seq<byte>, continuation: bool) returns (verdict: Verdict)
      modifies this
      ensures (View(), verdict) == Opening(old(View()), message, continuation)
    {
      hide WalkHere, Walked, FirstChunk, WordAt;
      ghost var s := View();
      var length := WordAt(message, 0);
      if headerSize < length < 20000 {
        splitPacketLength := length - headerSize;
        splitPacketBuffer := FirstChunk(message, headerSize);
        splitPacketStart := currentPacketNum;
        return Pass;
      }
      if continuation {
        return Pass;
      }
      VerdictIs(s, WalkHere(s, message));
      var ending := SendClientPacketSequence(message);
      return VerdictOf(ending);
    }

    method TakeChunk(message: seq<byte>, now: int) returns (verdict: Verdict)
      modifies this
      ensures (View(), verdict) == Continuing(old(View()), message, now)
    {
      hide Completed;
      splitPacketBuffer := splitPacketBuffer + message;
      splitPacketLength := splitPacketLength - |message|;
      verdict := Pass;
      if splitPacketLength <= 0 {
        verdict := CompleteSplit(now);
      }
    }

    static function VerdictOf(ending: Ending): Verdict {
      match ending case Hung => Return case Passed => Pass case Refused => Fail
    }

    method CompleteSplit(now: int) returns (verdict: Verdict)
      modifies this
      ensures (View(), verdict) == Completed(old(View()), now)
    {
      hide WalkHere, RolledBack, Walked;
      verdict := WalkWhole();
      if verdict == Fail {
        RollBack(now);
        verdict := Return;
      }
    }

    /** Walks the reassembled bytes and closes the accumulator. */
    method WalkWhole() returns (verdict: Verdict)
      modifies this
      ensures var s := old(View()); (View(), verdict) == Walked(s.(splitLen := 0), WalkHere(s, s.splitBuf))
    {
      hide WalkHere, Walked, VerdictOf;
      SplitLengthUnread(View());
      VerdictIs(View(), WalkHere(View(), splitPacketBuffer));
      var ending := SendClientPacketSequence(splitPacketBuffer);
      splitPacketLength := 0;
      verdict := VerdictOf(ending);
    }

    /** One pass of the drain loop; false if the call returns from inside it. */
    method DrainOne(continuation: bool, now: int) returns (more: bool)
      requires HeadHeld(View()) && Key(currentPacketNum) in packets
      modifies this
      ensures (View(), more) == Process(old(View()), continuation, now)
    {
      hide Judged;
      var message := packets[Key(currentPacketNum)].payload;
      var verdict := Judge(message, continuation, now);
      if verdict == Return {
        return false;
      }
      packetTimeout := 0;
      if verdict == Pass {
        packets := packets[Key(currentPacketNum) := Done];
        currentPacketNum := currentPacketNum + 1;
      } else {
        packets := packets[Key(currentPacketNum) := Blank];
      }
      return true;
    }

    method TouchHead()
      modifies this`packets
      ensures View() == old(View()).(packets := Touched(old(packets), Key(currentPacketNum)))
      ensures Key(currentPacketNum) in packets
    {
      packets := Touched(packets, Key(currentPacketNum));
    }

    /** Forwards every in-order packet that is ready, then prunes far behind the head. */
    method DrainReadyPackets(continuation: bool, now: int)
      modifies this
      ensures View() == Drained(old(View()), continuation, now)
    {
      hide Process, Pruned, DrainLoop;
      ghost var s := View();
      TouchHead();
      TouchUnread(s, continuation, now);
      while packets[Key(currentPacketNum)].Held?
        invariant Key(currentPacketNum) in packets
        invariant DrainLoop(View(), continuation, now) == DrainLoop(s, continuation, now)
        decreases HeldKeys(packets)
      {
        ghost var before := View();
        DrainLoopStep(before, continuation, now);
        var more := DrainOne(continuation, now);
        if !more {
          return;
        }
        TouchUnread(View(), continuation, now);
        TouchHead();
      }
      DrainLoopEnds(View(), continuation, now);
      Prune();
    }

    method Prune()
      modifies this`packets
      ensures packets == Pruned(old(packets), Key(currentPacketNum))
    {
      while packets != map[] && (Least(packets.Keys) + KEPT_BEHIND) % KEY_SPACE < Key(currentPacketNum)
        invariant Pruned(packets, Key(currentPacketNum)) == Pruned(old(packets), Key(currentPacketNum))
        decreases |packets|
      {
        packets := packets - {Least(packets.Keys)};
      }
    }

    // ----- Entry points -----

    /** A fresh stream: everything but the split accumulator is forgotten. */
    method StartOver()
      modifies this`currentPacketNum, this`packets, this`packetDropThisSession, this`packetTimer, this`commits, this`clean
      ensures View() == Reset(old(View()))
    {
      OpenEpoch();
      currentPacketNum := 0;
      packets := map[];
      packetDropThisSession := 0;
      packetTimer := 100;
    }

    ghost method OpenEpoch()
      modifies this`commits, this`clean
      ensures View() == old(View()).(commits := [], clean := splitPacketLength == 0)
    {
      commits := [];
      clean := splitPacketLength == 0;
    }

    /** An arriving 0x2016 or 0x201A datagram. */
    method SendPacketSequence(seqNo: int, payload: seq<byte>, continuation: bool, now: int)
      requires -0x8000_0000 <= seqNo < 0x8000_0000
      modifies this
      ensures View() == Arrived(old(View()), seqNo, payload, continuation, now)
    {
      hide Drained, Early, Reset;
      if seqNo == 0 {
        StartOver();
      }
      if !connectionActive {
        return;
      }
      packets := packets[Key(seqNo) := Held(payload)];
      if seqNo > currentPacketNum + WINDOW {
        return;
      }
      if seqNo > currentPacketNum {
        HandleEarly(continuation, now);
      } else {
        DrainReadyPackets(continuation, now);
      }
    }

    method SkipHead()
      modifies this
      ensures View() == GivenUp(old(View()))
    {
      currentPacketNum := currentPacketNum + 1;
      packetTimeout := 0;
    }

    method HandleEarly(continuation: bool, now: int)
      modifies this
      ensures View() == Early(old(View()), continuation, now)
    {
      hide Drained, GivenUp, AskedForHead, Touched, Key;
      packetTimeout := packetTimeout + 1;
      TouchHead();
      if packets[Key(currentPacketNum)] == Blank {
        if packetTimeout > MAX_WAITS {
          SkipHead();
          return;
        }
        AskForHead(now);
        return;
      } else if packets[Key(currentPacketNum)] == ReRequested {
        if packetTimeout > MAX_WAITS {
          SkipHead();
          return;
        }
      }
      DrainReadyPackets(continuation, now);
    }

    /** One request for a missing head, and the loss counters that go with it. */
    method AskForHead(now: int)
      modifies this`packets, this`packetDropThisSession, this`packetTimer, this`resends, this`packetResendTimer
      ensures View() == AskedForHead(old(View()), now)
    {
      packets := packets[Key(currentPacketNum) := ReRequested];
      RequestResend(currentPacketNum, 1, now);
      packetDropThisSession := packetDropThisSession + 1;
      if packetDropThisSession > 40 {
        packetTimer := 500;
      }
      if packetDropThisSession > 500 {
        packetTimer := 2000;
      }
    }

    /** The timer's retry of a missing head. */
    method PumpPacketResend(now: int)
      modifies this
      ensures View() == Pumped(old(View()), now)
    {
      hide Drained, Retried;
      if !loginComplete {
        return;
      }
      if !connectionActive || packets == map[] {
        return;
      }
      var newest := Greatest(packets.Keys);
      if newest <= Key(currentPacketNum) {
        return;
      }
      TouchHead();
      var head := packets[Key(currentPacketNum)];
      if head != Blank && head != ReRequested {
        DrainReadyPackets(false, now);
        return;
      }
      if now - packetResendTimer < RESEND_INTERVAL {
        return;
      }
      Retry(now);
    }

    /** Skips the head, or asks again for the whole hole up to the next stored sequence. */
    method Retry(now: int)
      modifies this
      ensures View() == Retried(old(View()), now)
    {
      hide Drained, GivenUp, HoleSize;
      packetTimeout := packetTimeout + 1;
      if packetTimeout > MAX_WAITS {
        SkipHead();
        DrainReadyPackets(false, now);
        return;
      }
      AskForHole(now);
    }

    method AskForHole(now: int)
      modifies this`packets, this`packetDropThisSession, this`resends, this`packetResendTimer
      ensures var s := old(View());
        View() == Requested(s.(packets := s.packets[Key(s.head) := ReRequested], drops := s.drops + 1),
                            s.head, HoleSize(s.packets, s.head), now)
    {
      hide AsLong, AsInt32;
      var above := KeysAbove(packets, Key(currentPacketNum));
      var count := if above != {} then AsLong(Least(above) - Key(currentPacketNum)) else 1;
      packets := packets[Key(currentPacketNum) := ReRequested];
      packetDropThisSession := packetDropThisSession + 1;
      RequestResend(currentPacketNum, count, now);
    }
  }

  lemma MarkedNone(m: Slots, lo: nat, hi: int)
    requires lo > hi
    ensures Marked(m, lo, hi) == m
  {
  }

  lemma MarkedNext(m: Slots, lo: nat, hi: nat)
    requires lo <= hi
    ensures Marked(m, lo, hi) == Marked(m, lo, hi - 1)[hi := ReRequested]
  {
  }

  lemma AppliedNothing(s: State)
    ensures Applied(s, UDPClient.WalkSoFar(s.shutting)) == s
    ensures Applied(s, Walk(Refused, [], false, false, false, s.shutting)) == s
    ensures Applied(s, UDPClient.WalkSoFar(true)) == s.(shutting := true)
  {
    assert s.log + [] == s.log;
  }

  lemma AppliedOutput(s: State, w: Walk, o: Output)
    ensures Applied(s, w.(out := w.out + [o])) == Applied(s, w).(log := Applied(s, w).log + [o])
  {
    assert s.log + w.out + [o] == s.log + (w.out + [o]);
  }

  lemma PreprocessingPasses(w: Walk, opcode: int)
    ensures Preprocessed(w, opcode).ending == w.ending
  {
  }

  lemma AppliedFields(s: State, w: Walk)
    ensures Applied(s, w).shutting == w.shutting && Applied(s, w).commits == s.commits
    ensures Applied(s, w).hung == s.hung
    ensures forall e :: Applied(s, w.(ending := e)) == Applied(s, w)
  {
  }

  /** Everything `w` did, then everything `d` did. */
  function Combined(w: Walk, d: Walk): Walk {
    Walk(d.ending, w.out + d.out, w.handoff || d.handoff, w.deactivated || d.deactivated, w.started || d.started,
         d.shutting)
  }

  lemma AppliedTwice(s: State, w: Walk, d: Walk)
    ensures Applied(Applied(s, w), d) == Applied(s, Combined(w, d))
  {
    assert (s.log + w.out) + d.out == s.log + (w.out + d.out);
  }

  /** Dispatching on top of what a walk has done so far adds exactly that frame's effects. */
  lemma DispatchComposes(s: State, w: Walk, opcode: int, length: int, payload: seq<byte>)
    requires w.ending == Passed
    ensures var d := Dispatched(UDPClient.WalkSoFar(w.shutting), opcode, length, payload);
      var w' := Dispatched(w, opcode, length, payload);
      Applied(Applied(s, w), d) == Applied(s, w') && w'.ending == d.ending && w'.shutting == d.shutting
  {
    hide Applied, Dispatched;
    DispatchCombines(w, opcode, length, payload);
    AppliedTwice(s, w, Dispatched(UDPClient.WalkSoFar(w.shutting), opcode, length, payload));
  }

  lemma DispatchCombines(w: Walk, opcode: int, length: int, payload: seq<byte>)
    requires w.ending == Passed
    ensures Dispatched(w, opcode, length, payload)
         == Combined(w, Dispatched(UDPClient.WalkSoFar(w.shutting), opcode, length, payload))
  {
    hide SilentlyConsumed, HandledHere, Preprocessed, Combined;
    var none := UDPClient.WalkSoFar(w.shutting);
    NothingCombines(w);
    PreprocessingCombines(w, opcode);
    OutputCombines(w, none, Handled(opcode, payload));
    OutputCombines(w, Preprocessed(none, opcode), Forward(opcode, payload));
  }

  lemma NothingCombines(w: Walk)
    requires w.ending == Passed
    ensures var none := UDPClient.WalkSoFar(w.shutting);
      && w == Combined(w, none) && w.(shutting := true) == Combined(w, none.(shutting := true))
      && w.(ending := Refused) == Combined(w, none.(ending := Refused))
  {
    assert w.out + [] == w.out;
  }

  lemma PreprocessingCombines(w: Walk, opcode: int)
    requires w.ending == Passed
    ensures Preprocessed(w, opcode) == Combined(w, Preprocessed(UDPClient.WalkSoFar(w.shutting), opcode))
  {
    assert w.out + [] == w.out;
  }

  lemma OutputCombines(w: Walk, d: Walk, o: Output)
    ensures Combined(w, d).(out := Combined(w, d).out + [o]) == Combined(w, d.(out := d.out + [o]))
  {
    assert w.out + d.out + [o] == w.out + (d.out + [o]);
  }

  lemma VerdictIs(s: State, w: Walk)
    ensures Walked(s, w).1 == UDPClient.VerdictOf(w.ending)
  {
  }

  /** The walk does not read the count of split bytes to come. */
  lemma SplitLengthUnread(s: State)
    ensures var w := WalkHere(s, s.splitBuf);
      Walked(s.(splitLen := 0), w) == (Walked(s, w).0.(splitLen := 0), Walked(s, w).1)
  {
    hide WalkHere;
  }

  /** Creating the head slot before the drain reads it changes nothing. */
  lemma TouchUnread(s: State, continuation: bool, now: int)
    ensures DrainLoop(s.(packets := Touched(s.packets, Key(s.head))), continuation, now)
         == DrainLoop(s, continuation, now)
    ensures HeldKeys(Touched(s.packets, Key(s.head))) == HeldKeys(s.packets)
  {
    hide Process;
  }
}
