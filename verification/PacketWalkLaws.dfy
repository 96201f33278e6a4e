/** The walk of a packet made of whole frames dispatches every frame in order with exactly its payload. */
module PacketWalkLaws {
  import opened Bytes
  import opened Framing
  import opened PacketWalk

  /** Each frame in turn, up to a refused opcode or a shut-down. */
  function Folded(ms: seq<Message>, w: Walk): Walk {
    if ms == [] || w.shutting then w
    else
      var w' := Dispatched(w, AsShort(ms[0].opcode), HEADER + |ms[0].payload|, ms[0].payload);
      if w'.ending == Refused then w' else Folded(ms[1..], w')
  }

  lemma WordShifts(pre: seq<byte>, s: seq<byte>, k: nat)
    ensures WordAt(pre + s, |pre| + k) == WordAt(s, k)
  {
  }

  lemma StepOverFrame(pre: seq<byte>, m: Message, rest: seq<byte>, w: Walk)
    requires Sendable(m) && |pre + Frame(m) + rest| < 0x8000
    ensures var w' := Dispatched(w, AsShort(m.opcode), HEADER + |m.payload|, m.payload);
      FrameStep(pre + Frame(m) + rest, |pre|, w) ==
        if w'.ending == Refused then (w', |pre|, false) else (w', |pre| + |Frame(m)|, true)
  {
    hide WordAt, Frame, Dispatched;
    var buf := pre + Frame(m) + rest;
    assert buf == pre + (Frame(m) + rest);
    FrameHeader(m, rest);
    WordShifts(pre, Frame(m) + rest, 0);
    WordShifts(pre, Frame(m) + rest, 2);
    assert buf[|pre| + HEADER..|pre| + |Frame(m)|] == (Frame(m) + rest)[HEADER..|Frame(m)|];
  }

  lemma {:induction false} WalkDispatches(pre: seq<byte>, ms: seq<Message>, w: Walk)
    requires (forall m <- ms :: Sendable(m)) && |pre + Frames(ms)| < 0x8000
    ensures WalkFrom(pre + Frames(ms), |pre|, w) == Folded(ms, w)
    decreases |ms|
  {
    hide FrameStep, Dispatched, Frame;
    var buf := pre + Frames(ms);
    if ms != [] {
      FirstFrame(ms);
      var f, rest := Frame(ms[0]), Frames(ms[1..]);
      assert buf == pre + f + rest;
      StepOverFrame(pre, ms[0], rest, w);
      var w' := Dispatched(w, AsShort(ms[0].opcode), HEADER + |ms[0].payload|, ms[0].payload);
      WalkDispatches(pre + f, ms[1..], w');
    }
  }

  /** A game frame with no side effect on the connection. */
  predicate Plain(m: Message) {
    && 0 < m.opcode <= 0xFE && m.opcode !in {0x00BA, 0x003A, 0x0005} && |m.payload| <= MAX_FRAME - HEADER
    && (m.opcode == 0x001B ==> |m.payload| >= 4)
  }

  function Forwards(ms: seq<Message>): seq<Output> {
    if ms == [] then [] else [Forward(ms[0].opcode, ms[0].payload)] + Forwards(ms[1..])
  }

  lemma {:induction false} PlainFolded(ms: seq<Message>, w: Walk)
    requires (forall m <- ms :: Plain(m)) && !w.shutting && w.ending == Passed
    ensures Folded(ms, w) == w.(out := w.out + Forwards(ms))
  {
    if ms != [] {
      var m := ms[0];
      assert Plain(m);
      var w' := w.(out := w.out + [Forward(m.opcode, m.payload)]);
      assert Dispatched(w, AsShort(m.opcode), HEADER + |m.payload|, m.payload) == w';
      PlainFolded(ms[1..], w');
      assert w'.out + Forwards(ms[1..]) == w.out + Forwards(ms);
    }
  }

  /** A packet of game frames reaches the client frame by frame, verbatim and in order. */
  lemma PlainFramesForwarded(ms: seq<Message>)
    requires (forall m <- ms :: Plain(m)) && |Frames(ms)| < 0x8000
    ensures WalkOf(Frames(ms), false) == Walk(Passed, Forwards(ms), false, false, false, false)
  {
    assert [] + Frames(ms) == Frames(ms);
    var w := Walk(Passed, [], false, false, false, false);
    WalkDispatches([], ms, w);
    PlainFolded(ms, w);
    assert [] + Forwards(ms) == Forwards(ms);
  }

  // ----- Frames with side effects -----

  /** A game frame of any opcode, those that change connection state included. */
  predicate Game(m: Message) {
    0 < m.opcode <= 0xFE && |m.payload| <= 24996 && (m.opcode == 0x1B ==> |m.payload| >= 4)
  }

  predicate Has(ms: seq<Message>, opcode: nat) { exists m :: m in ms && m.opcode == opcode }

  lemma HasFirst(ms: seq<Message>, opcode: nat)
    requires ms != []
    ensures Has(ms, opcode) <==> ms[0].opcode == opcode || Has(ms[1..], opcode)
  {
  }

  lemma {:induction false} GameFolded(ms: seq<Message>, w: Walk)
    requires (forall m <- ms :: Game(m)) && !w.shutting && w.ending == Passed
    ensures Folded(ms, w) ==
      Walk(Passed, w.out + Forwards(ms), w.handoff || Has(ms, 0x3A), w.deactivated || Has(ms, 0x3A) || Has(ms, 0xBA),
           w.started || Has(ms, 0x05), false)
  {
    hide Has;
    if ms == [] {
      assert !Has(ms, 0x3A) && !Has(ms, 0xBA) && !Has(ms, 0x05) by {
        HasNone();
      }
      assert w.out + Forwards(ms) == w.out;
    } else {
      var m := ms[0];
      assert Game(m);
      HasFirst(ms, 0x3A);
      HasFirst(ms, 0xBA);
      HasFirst(ms, 0x05);
      var w' := Dispatched(w, AsShort(m.opcode), HEADER + |m.payload|, m.payload);
      assert w' == Walk(Passed, w.out + [Forward(m.opcode, m.payload)], w.handoff || m.opcode == 0x3A,
                        w.deactivated || m.opcode == 0x3A || m.opcode == 0xBA, w.started || m.opcode == 0x05, false);
      GameFolded(ms[1..], w');
      assert w'.out + Forwards(ms[1..]) == w.out + Forwards(ms);
    }
  }

  lemma HasNone()
    ensures forall opcode :: !Has([], opcode)
  {
  }

  /** Every game frame is forwarded verbatim, and the packet hands off exactly if one of them is 0x3A, disconnects exactly if
      one is 0x3A or 0xBA, and completes the login exactly if one is 0x05. */
  lemma GameFramesWalked(ms: seq<Message>)
    requires (forall m <- ms :: Game(m)) && |Frames(ms)| < 0x8000
    ensures WalkOf(Frames(ms), false) ==
      Walk(Passed, Forwards(ms), Has(ms, 0x3A), Has(ms, 0x3A) || Has(ms, 0xBA), Has(ms, 0x05), false)
  {
    hide Has, Dispatched, Forwards, Frames, Folded, WalkFrom, Frame;
    assert [] + Frames(ms) == Frames(ms);
    var w := Walk(Passed, [], false, false, false, false);
    forall m | m in ms
      ensures Sendable(m)
    {
      assert Game(m);
    }
    WalkDispatches([], ms, w);
    GameFolded(ms, w);
    assert [] + Forwards(ms) == Forwards(ms);
  }

  /** What becomes of one frame that is not a game frame: short 0x1B and seven control opcodes vanish, 0x100A shuts down,
      five opcodes go to their handlers, and any other is refused. */
  lemma ControlFrameWalked(m: Message)
    requires Sendable(m) && |Frame(m)| < 0x8000 && (m.opcode == 0 || m.opcode > 0xFE || (m.opcode == 0x1B && |m.payload| < 4))
    ensures WalkOf(Frame(m), false) ==
      if m.opcode == 0x1B || m.opcode == 0x2013 || m.opcode == 0x2014 || m.opcode == 0x2025 || m.opcode == 0x202A
         || m.opcode == 0x202B || m.opcode == 0x202D || m.opcode == 0x202E
      then Walk(Passed, [], false, false, false, false)
      else if m.opcode == 0x100A then Walk(Passed, [], false, false, false, true)
      else if m.opcode == 0x2011 || m.opcode == 0x2012 || m.opcode == 0x2018 || m.opcode == 0x2019 || m.opcode == 0x2020
      then Walk(Passed, [Handled(m.opcode, m.payload)], false, false, false, false)
      else Walk(Refused, [], false, false, false, false)
  {
    hide WalkFrom, Frame;
    var w := Walk(Passed, [], false, false, false, false);
    assert [m][..0] == [] && Frames([m]) == Frame(m) by {
      OneFrame(m);
    }
    assert [] + Frame(m) == Frame(m);
    WalkDispatches([], [m], w);
    assert [m][1..] == [];
  }

  lemma OneFrame(m: Message)
    ensures Frames([m]) == Frame(m)
  {
    hide Frame;
    assert [m][..0] == [];
    assert Frames([m]) == Frames([]) + Frame(m);
  }

  /** A first frame whose length is shorter than its own header forwards nothing. The walk goes on that many bytes later,
      inside the header; with length 0 it never gets on at all. */
  lemma ShortFrameWalked(buf: seq<byte>)
    requires 4 <= |buf| < 0x8000 && WordAt(buf, 0) < 4
    requires 0 < WordAt(buf, 2) <= 0xFE && WordAt(buf, 2) !in {0x05, 0x1B, 0x3A, 0xBA}
    ensures var n, w := WordAt(buf, 0), Walk(Passed, [], false, false, false, false);
      WalkOf(buf, false) == if n == 0 then w.(ending := Hung) else WalkFrom(buf, n, w)
  {
    hide WordAt;
  }
}
