/** Split packets: cutting and reassembling is a round trip, and a failed reassembly is rolled back exactly. */
module ReassemblerSplit {
  import opened Bytes
  import opened PacketWalk
  import opened Reassembler
  import opened ReassemblerSafety
  import opened ReassemblerOrder

  function Joined(chunks: seq<seq<byte>>): seq<byte> {
    if chunks == [] then [] else Joined(chunks[..|chunks| - 1]) + chunks[|chunks| - 1]
  }

  /** `chunks` is `frame` cut into a first piece of the fixed size and any number of non-empty others. */
  ghost predicate Cuts(chunks: seq<seq<byte>>, frame: seq<byte>, headerSize: nat) {
    && |chunks| >= 2 && 2 <= headerSize < |frame| < 20000 && WordAt(frame, 0) == |frame|
    && |chunks[0]| == headerSize && (forall i :: 0 <= i < |chunks| ==> chunks[i] != [])
    && Joined(chunks) == frame
  }

  lemma {:induction false} JoinedLength(chunks: seq<seq<byte>>, j: nat)
    requires j <= |chunks| && forall i :: 0 <= i < |chunks| ==> chunks[i] != []
    ensures Joined(chunks[..j]) <= Joined(chunks)
    ensures j < |chunks| ==> |Joined(chunks[..j])| < |Joined(chunks)|
    decreases |chunks|
  {
    if j < |chunks| {
      var init := chunks[..|chunks| - 1];
      JoinedLength(init, j);
      assert init[..j] == chunks[..j];
    } else {
      assert chunks[..j] == chunks;
    }
  }

  lemma FirstJoined(chunks: seq<seq<byte>>)
    requires chunks != []
    ensures Joined(chunks[..1]) == chunks[0]
  {
    assert chunks[..1][..0] == [] && chunks[..1][0] == chunks[0];
    assert Joined(chunks[..1]) == [] + chunks[0];
  }

  lemma NextJoined(chunks: seq<seq<byte>>, j: nat)
    requires j < |chunks|
    ensures Joined(chunks[..j + 1]) == Joined(chunks[..j]) + chunks[j]
  {
    assert chunks[..j + 1][..j] == chunks[..j];
  }

  /** The first piece announces the split with the full length. */
  lemma FirstChunkAnnounces(chunks: seq<seq<byte>>, frame: seq<byte>, headerSize: nat)
    requires Cuts(chunks, frame, headerSize)
    ensures StartsSplit(chunks[0], headerSize) && WordAt(chunks[0], 0) == |frame|
    ensures FirstChunk(chunks[0], headerSize) == chunks[0]
  {
    FirstJoined(chunks);
    JoinedLength(chunks, 1);
    assert chunks[0][0] == frame[0] && chunks[0][1] == frame[1];
  }

  // ----- Held chunks -----

  /** The first `j` chunks have been taken in, the last of them just below the head, and the others are held from the
      head on. */
  ghost predicate Midway(s: State, chunks: seq<seq<byte>>, frame: seq<byte>, j: nat)
    requires j <= |chunks|
  {
    && s.head >= j
    && (if j == 0 then s.splitLen == 0
        else s.splitStart == s.head - j && s.splitBuf == Joined(chunks[..j]) && s.splitLen == |frame| - |s.splitBuf|)
    && forall i :: j <= i < |chunks| ==> SlotAt(s.packets, s.head - j + i) == Held(chunks[i])
  }

  /** `n` passes of the drain loop, as far as the head stays held. */
  function Passes(s: State, continuation: bool, now: int, n: nat): State
    decreases n
  {
    if n == 0 || !HeadHeld(s) then s else Passes(Process(s, continuation, now).0, continuation, now, n - 1)
  }

  /** Taking a chunk in marks its slot, moves the head, and touches nothing but the split besides. */
  ghost predicate Taken(s: State, r: State)
    requires 0 <= s.head
  {
    r == s.(waits := r.waits, packets := s.packets[s.head := Done], head := s.head + 1,
            splitLen := r.splitLen, splitStart := r.splitStart, splitBuf := r.splitBuf) && r.waits == 0
  }

  lemma HeadChunk(s: State, chunks: seq<seq<byte>>, frame: seq<byte>, j: nat)
    requires j < |chunks| && Midway(s, chunks, frame, j)
    ensures HeadHeld(s) && s.packets[s.head] == Held(chunks[j])
  {
    assert SlotAt(s.packets, s.head - j + j) == Held(chunks[j]);
  }

  lemma ChunkTaken(s: State, chunks: seq<seq<byte>>, frame: seq<byte>, j: nat, continuation: bool, now: int)
    requires Cuts(chunks, frame, s.headerSize) && j + 1 < |chunks| && Midway(s, chunks, frame, j)
    ensures HeadHeld(s)
    ensures var (r, more) := Process(s, continuation, now); more && Taken(s, r) && Midway(r, chunks, frame, j + 1)
  {
    hide Process, Cuts, Joined;
    HeadChunk(s, chunks, frame, j);
    if j == 0 {
      FirstTaken(s, chunks, frame, continuation, now);
    } else {
      LaterTaken(s, chunks, frame, j, continuation, now);
    }
    var r := Process(s, continuation, now).0;
    forall i | j + 1 <= i < |chunks|
      ensures SlotAt(r.packets, r.head - (j + 1) + i) == Held(chunks[i])
    {
      assert SlotAt(s.packets, s.head - j + i) == Held(chunks[i]);
    }
  }

  lemma FirstTaken(s: State, chunks: seq<seq<byte>>, frame: seq<byte>, continuation: bool, now: int)
    requires Cuts(chunks, frame, s.headerSize) && s.splitLen == 0 && 0 <= s.head
    requires HeadHeld(s) && s.packets[s.head] == Held(chunks[0])
    ensures var (r, more) := Process(s, continuation, now);
      && more && Taken(s, r) && r.splitStart == s.head && r.splitBuf == Joined(chunks[..1])
      && r.splitLen == |frame| - |r.splitBuf|
  {
    hide WalkOf, WordAt, StartsSplit, FirstChunk, Joined;
    FirstJoined(chunks);
    FirstChunkAnnounces(chunks, frame, s.headerSize);
  }

  lemma LaterTaken(s: State, chunks: seq<seq<byte>>, frame: seq<byte>, j: nat, continuation: bool, now: int)
    requires Cuts(chunks, frame, s.headerSize) && 1 <= j && j + 1 < |chunks| && 0 <= s.head
    requires HeadHeld(s) && s.packets[s.head] == Held(chunks[j])
    requires s.splitBuf == Joined(chunks[..j]) && s.splitLen == |frame| - |s.splitBuf|
    ensures var (r, more) := Process(s, continuation, now);
      && more && Taken(s, r) && r.splitStart == s.splitStart && r.splitBuf == Joined(chunks[..j + 1])
      && r.splitLen == |frame| - |r.splitBuf|
  {
    hide WalkOf, WordAt, Joined;
    JoinedLength(chunks, j);
    JoinedLength(chunks, j + 1);
    NextJoined(chunks, j);
  }

  /** What one walk of the whole frame leaves of a split that began at `start` in `m` sequences. */
  ghost predicate CommittedAs(s: State, r: State, w: Walk, start: nat, m: nat) {
    && r.head == start + m && r.splitLen == 0 && r.nacks == s.nacks && r.commits == s.commits + [start + m - 1]
    && forall k: nat :: SlotAt(r.packets, k) == if s.head <= k < start + m then Done else SlotAt(s.packets, k)
  }

  ghost predicate TakenBack(s: State, r: State, w: Walk, start: nat, m: nat) {
    && r.head == start && r.splitLen == 0 && r.nacks == s.nacks + [Nack(AsInt32(start), AsInt32(m))]
    && r.commits == s.commits && r.sector == s.sector && r.hung == s.hung && r.headerSize == s.headerSize
    && r.waits in {0, s.waits}
    && r.active == (s.active && !w.deactivated) && r.shutting == w.shutting
    && forall k: nat :: SlotAt(r.packets, k) == if start <= k < start + m then ReRequested else SlotAt(s.packets, k)
  }

  lemma LastChunk(s: State, chunks: seq<seq<byte>>, frame: seq<byte>, continuation: bool, now: int)
    requires Cuts(chunks, frame, s.headerSize) && Midway(s, chunks, frame, |chunks| - 1)
    ensures HeadHeld(s)
    ensures var m, w := |chunks|, WalkHere(s, frame);
      var (r, more) := Process(s, continuation, now);
      && (more <==> w.ending == Passed) && r.log == s.log + w.out
      && (Calm(w) ==> CommittedAs(s, r, w, s.head - (m - 1), m))
      && (w.ending == Refused && !w.handoff ==> TakenBack(s, r, w, s.head - (m - 1), m))
  {
    hide WalkHere, Completed, Joined;
    var m := |chunks|;
    HeadChunk(s, chunks, frame, m - 1);
    NextJoined(chunks, m - 1);
    assert chunks[..m] == chunks;
    var s1 := s.(splitBuf := frame, splitLen := 0);
    assert Judged(s, continuation, now) == Completed(s1, now);
    assert WalkHere(s1, frame) == WalkHere(s, frame) by { SameWalk(s, s1, frame); }
    WholeWalk(s, s1, m, now);
  }

  lemma SameWalk(p: State, p1: State, frame: seq<byte>)
    requires p1.sector == p.sector && p1.shutting == p.shutting
    ensures WalkHere(p1, frame) == WalkHere(p, frame)
  {
  }

  lemma WholeWalk(s: State, s1: State, m: nat, now: int)
    requires HeadHeld(s) && m >= 1 && 0 <= s.splitStart == s.head - (m - 1)
    requires s1 == s.(splitBuf := s1.splitBuf, splitLen := 0)
    ensures var w := WalkHere(s1, s1.splitBuf);
      var (s2, v) := Completed(s1, now);
      var r := if v == Return then s2 else Finished(s2, v == Pass);
      && (v != Return <==> w.ending == Passed) && r.log == s.log + w.out
      && (Calm(w) ==> CommittedAs(s, r, w, s.splitStart, m))
      && (w.ending == Refused && !w.handoff ==> TakenBack(s, r, w, s.splitStart, m))
  {
    hide WalkHere, Walked, RolledBack, CommittedAs, TakenBack;
    var w := WalkHere(s1, s1.splitBuf);
    assert s1.(splitLen := 0) == s1;
    WalkResult(s1, w);
    if w.ending == Refused {
      Refusal(s, s1, w, m, now);
    } else if w.ending == Passed {
      Passing(s, s1, w, m);
    }
  }

  lemma WalkResult(s: State, w: Walk)
    ensures Walked(s, w).1 == match w.ending case Hung => Return case Passed => Pass case Refused => Fail
    ensures Walked(s, w).0.log == s.log + w.out
  {
  }

  lemma Refusal(s: State, s1: State, w: Walk, m: nat, now: int)
    requires m >= 1 && 0 <= s.splitStart == s.head - (m - 1) && w.ending == Refused
    requires s1 == s.(splitBuf := s1.splitBuf, splitLen := 0)
    ensures var r := RolledBack(Walked(s1, w).0, now);
      r.log == s.log + w.out && (!w.handoff ==> TakenBack(s, r, w, s.splitStart, m))
  {
  }

  lemma Passing(s: State, s1: State, w: Walk, m: nat)
    requires m >= 1 && 0 <= s.splitStart == s.head - (m - 1) && w.ending == Passed
    requires s1 == s.(splitBuf := s1.splitBuf, splitLen := 0)
    ensures var r := Finished(Walked(s1, w).0, true);
      r.log == s.log + w.out && (Calm(w) ==> CommittedAs(s, r, w, s.splitStart, m))
  {
  }

  /** The drain from a state in which the rest of a split is held. It walks exactly the original bytes, once. If the walk
      passes, the drain goes on behind the split, which a quiet walk commits. If it is refused, the drain ends: every
      sequence of the split is re-requested, the head is back at its start, the request covers exactly the split, and
      no split is in flight. */
  lemma {:induction false} SplitHandled(s: State, chunks: seq<seq<byte>>, frame: seq<byte>, j: nat, continuation: bool, now: int)
    requires Cuts(chunks, frame, s.headerSize) && j < |chunks| && Midway(s, chunks, frame, j)
    ensures var w, m := WalkHere(s, frame), |chunks|;
      var r := Passes(s, continuation, now, m - j);
      && DrainLoop(s, continuation, now) == (if w.ending == Passed then DrainLoop(r, continuation, now) else (r, false))
      && r.log == s.log + w.out
      && (Calm(w) ==> CommittedAs(s, r, w, s.head - j, m))
      && (w.ending == Refused && !w.handoff ==> TakenBack(s, r, w, s.head - j, m))
    decreases |chunks| - j
  {
    hide WalkHere, Process, DrainLoop, Cuts, Midway, Joined, Calm, Taken, CommittedAs, TakenBack;
    var m := |chunks|;
    MidwayHead(s, chunks, frame, j);
    var p := Process(s, continuation, now).0;
    if j == m - 1 {
      LastChunk(s, chunks, frame, continuation, now);
      DrainLoopStep(s, continuation, now);
      assert Passes(s, continuation, now, 1) == Passes(p, continuation, now, 0);
    } else {
      ChunkTaken(s, chunks, frame, j, continuation, now);
      DrainLoopStep(s, continuation, now);
      TakenFacts(s, p, frame);
      SplitHandled(p, chunks, frame, j + 1, continuation, now);
      var q := Passes(p, continuation, now, m - (j + 1));
      assert Passes(s, continuation, now, m - j) == q;
      ChunkThenRest(s, p, q, WalkHere(s, frame), s.head - j, m);
    }
  }

  lemma TakenFacts(s: State, p: State, frame: seq<byte>)
    requires 0 <= s.head && Taken(s, p)
    ensures p.head == s.head + 1 && p.log == s.log && p.headerSize == s.headerSize
    ensures WalkHere(p, frame) == WalkHere(s, frame)
  {
    SameWalk(s, p, frame);
  }

  /** What the rest of the split leaves of the state after one chunk, seen from before that chunk. */
  lemma ChunkThenRest(s: State, p: State, q: State, w: Walk, start: nat, m: nat)
    requires start <= s.head < start + m && Taken(s, p)
    ensures CommittedAs(p, q, w, start, m) ==> CommittedAs(s, q, w, start, m)
    ensures TakenBack(p, q, w, start, m) ==> TakenBack(s, q, w, start, m)
  {
  }

  lemma MidwayHead(s: State, chunks: seq<seq<byte>>, frame: seq<byte>, j: nat)
    requires j < |chunks| && Midway(s, chunks, frame, j)
    ensures j <= s.head && HeadHeld(s)
  {
    HeadChunk(s, chunks, frame, j);
  }

  /** A datagram stored at the head. */
  function StoredAtHead(s: State, payload: seq<byte>): State { s.(packets := s.packets[Key(s.head) := Held(payload)]) }

  /** The arrival of the chunk a split is waiting for, when the chunks behind it are held. */
  lemma SplitArrives(s: State, chunks: seq<seq<byte>>, frame: seq<byte>, j: nat, continuation: bool, now: int)
    requires Cuts(chunks, frame, s.headerSize) && j < |chunks| && Legal(Arrive(s.head, chunks[j], continuation, now))
    requires s.active && !s.hung && 0 < s.head && Midway(StoredAtHead(s, chunks[j]), chunks, frame, j)
    ensures var w, m := WalkHere(s, frame), |chunks|;
      var r := Step(s, Arrive(s.head, chunks[j], continuation, now));
      && (w.ending == Refused && !w.handoff ==> r.log == s.log + w.out && TakenBack(s, r, w, s.head - j, m))
      && (Calm(w) ==>
            var q := Passes(StoredAtHead(s, chunks[j]), continuation, now, m - j);
            q.log == s.log + w.out && CommittedAs(StoredAtHead(s, chunks[j]), q, w, s.head - j, m)
            && r == Drained(q, continuation, now))
  {
    hide WalkHere, DrainLoop, Passes, Cuts, Joined, Pruned;
    var s1 := StoredAtHead(s, chunks[j]);
    SplitHandled(s1, chunks, frame, j, continuation, now);
    SameWalk(s, s1, frame);
    var w, r := WalkHere(s, frame), Step(s, Arrive(s.head, chunks[j], continuation, now));
    assert r == Drained(s1, continuation, now);
    if w.ending == Refused && !w.handoff {
      assert s.head - j <= s.head < s.head - j + |chunks|;
      assert forall k: nat :: k != s.head ==> SlotAt(s1.packets, k) == SlotAt(s.packets, k);
    }
  }

  // ----- The same round trip seen by the ideal receiver -----

  lemma {:induction false} IdealGathers(stream: seq<seq<byte>>, n: nat, chunks: seq<seq<byte>>, frame: seq<byte>, headerSize: nat, j: nat)
    requires n + |chunks| <= |stream| && stream[n..n + |chunks|] == chunks && Cuts(chunks, frame, headerSize)
    requires InOrder(stream, n, headerSize).splitLen == 0 && 1 <= j < |chunks|
    ensures var i, was := InOrder(stream, n + j, headerSize), InOrder(stream, n, headerSize);
      && i.splitBuf == Joined(chunks[..j]) && i.splitLen == |frame| - |i.splitBuf|
      && i.log == was.log && i.commits == was.commits && i.calm == was.calm
  {
    hide WalkOf, WordAt, StartsSplit, FirstChunk, Joined;
    assert stream[n + j - 1] == stream[n..n + |chunks|][j - 1] == chunks[j - 1];
    JoinedLength(chunks, j);
    if j == 1 {
      FirstJoined(chunks);
      FirstChunkAnnounces(chunks, frame, headerSize);
    } else {
      IdealGathers(stream, n, chunks, frame, headerSize, j - 1);
      NextJoined(chunks, j - 1);
      JoinedLength(chunks, j - 1);
    }
  }

  /** Among other packets, a cut frame adds exactly the walk of the original bytes to the client's log, once,
      when its last chunk is reached. */
  lemma SplitRoundTrip(stream: seq<seq<byte>>, n: nat, chunks: seq<seq<byte>>, frame: seq<byte>, headerSize: nat)
    requires n + |chunks| <= |stream| && stream[n..n + |chunks|] == chunks && Cuts(chunks, frame, headerSize)
    requires InOrder(stream, n, headerSize).splitLen == 0
    ensures var i, was, w := InOrder(stream, n + |chunks|, headerSize), InOrder(stream, n, headerSize), WalkOf(frame, false);
      && i.splitLen == 0 && i.log == was.log + w.out && i.commits == was.commits + [n + |chunks| - 1]
      && (i.calm <==> was.calm && Calm(w))
    ensures forall j: nat :: n < j < n + |chunks| ==>
      InOrder(stream, j, headerSize).log == InOrder(stream, n, headerSize).log
  {
    hide WalkOf, WordAt, StartsSplit, FirstChunk, Joined;
    var m := |chunks|;
    forall j: nat | n < j < n + m
      ensures InOrder(stream, j, headerSize).log == InOrder(stream, n, headerSize).log
    {
      IdealGathers(stream, n, chunks, frame, headerSize, j - n);
    }
    IdealGathers(stream, n, chunks, frame, headerSize, m - 1);
    assert stream[n + m - 1] == stream[n..n + m][m - 1] == chunks[m - 1];
    NextJoined(chunks, m - 1);
    JoinedLength(chunks, m - 1);
    assert chunks[..m] == chunks;
  }
}
