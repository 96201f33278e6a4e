/** A split whose reassembly was refused: once the connection can take it, the sequences asked for again arrive in any
    order, among other traffic, and the split is committed and sent. */
module ReassemblerRecovery {
  import opened Bytes
  import opened PacketWalk
  import opened Reassembler
  import opened ReassemblerSafety
  import opened ReassemblerOrder
  import opened ReassemblerSplit
  import Framing
  import PacketWalkLaws

  // ----- The stream from the split on -----

  /** A stream whose first packets are of no account. */
  function Padded(start: nat, tail: seq<seq<byte>>): (stream: seq<seq<byte>>)
    ensures |stream| == start + |tail| && stream[start..] == tail
  {
    if start == 0 then tail else [[]] + Padded(start - 1, tail)
  }

  lemma {:induction false} PaddedIsBlank(start: nat, tail: seq<seq<byte>>, k: nat)
    requires k < start
    ensures Padded(start, tail)[k] == []
  {
    if k > 0 {
      PaddedIsBlank(start - 1, tail, k - 1);
    }
  }

  lemma {:induction false} IdealAtStart(start: nat, tail: seq<seq<byte>>, n: nat, headerSize: nat)
    requires n <= start
    ensures InOrder(Padded(start, tail), n, headerSize) == Ideal(0, [], [], [], true)
  {
    hide Padded;
    if n > 0 {
      IdealAtStart(start, tail, n - 1, headerSize);
      PaddedIsBlank(start, tail, n - 1);
    }
  }

  /** What has been sent and committed stays at the front of log and commits. */
  lemma {:induction false} IdealGrows(stream: seq<seq<byte>>, m: nat, n: nat, headerSize: nat)
    requires m <= n <= |stream|
    ensures InOrder(stream, m, headerSize).log <= InOrder(stream, n, headerSize).log
    ensures InOrder(stream, m, headerSize).commits <= InOrder(stream, n, headerSize).commits
  {
    hide WalkOf, WordAt, StartsSplit, FirstChunk;
    if m < n {
      IdealGrows(stream, m, n - 1, headerSize);
    }
  }

  // ----- After the refusal -----

  /** From the split's start on, nothing is held but what the stream carries behind the split. */
  ghost predicate HoldsOnly(m: Slots, from: nat, stream: seq<seq<byte>>) {
    forall k: nat :: from <= k ==> match SlotAt(m, k)
      case Held(payload) => k < |stream| && payload == stream[k]
      case Done => false
      case _ => true
  }

  function HeldIn(m: Slots, from: nat, n: nat): (s: set<int>)
    ensures forall k: int :: k in s <==> 0 <= k < n && (k < from || SlotAt(m, k).Held?)
  {
    set k: int | 0 <= k < n && (k < from || SlotAt(m, k).Held?)
  }

  /** The connection is there and active again. */
  function Reconnected(s: State): State {
    Step(Step(s, SetActive(true)), SetSector(true))
  }

  /** The state after the refusal follows the ideal receiver of the stream from the split's start on. */
  lemma RefusedFollows(s: State, r: State, w: Walk, start: nat, m: nat, tail: seq<seq<byte>>)
    requires TakenBack(s, r, w, start, m) && !r.hung && !r.shutting && start > 0 && m > 0
    requires HoldsOnly(s.packets, start + m, Padded(start, tail))
    ensures var stream, q := Padded(start, tail), Reconnected(r);
      var arrived := HeldIn(r.packets, start, |stream|);
      && Follows(q, stream, arrived, Base(r.log, r.commits)) && q.head == start && q.head !in arrived
      && q.headerSize == s.headerSize
  {
    hide InOrder, Padded, HeldIn;
    IdealAtStart(start, tail, start, s.headerSize);
    var stream := Padded(start, tail);
    assert r.log + [] == r.log && r.commits + [] == r.commits;
    assert SlotAt(r.packets, start) == ReRequested;
    SlotsAfter(s.packets, r.packets, start, m, stream);
  }

  lemma SlotsAfter(m0: Slots, m1: Slots, start: nat, m: nat, stream: seq<seq<byte>>)
    requires HoldsOnly(m0, start + m, stream)
    requires forall k: nat :: SlotAt(m1, k) == if start <= k < start + m then ReRequested else SlotAt(m0, k)
    ensures SlotsFollow(m1, start, stream, HeldIn(m1, start, |stream|))
  {
  }

  /** The main result. The chunk a split is waiting for arrives and its walk is refused, whatever the reason short of a
      hand-off or a shut-down. The connection is put right. Then 0x2016 datagrams arrive in any order with any duplicates,
      among ticks, with no give-up: the server's packets from the split's start on, which begin with a frame cut into
      chunks, the same as before or another. Once all of these have arrived the frame has been sent whole, right
      behind what the refused walk sent, the split is the next commit, and the head is past it. */
  lemma SplitRecovers(s: State, chunks: seq<seq<byte>>, frame: seq<byte>, j: nat, continuation: bool, now: int,
                      again: seq<seq<byte>>, frame': seq<byte>, tail: seq<seq<byte>>, es: seq<Event>)
    requires Cuts(chunks, frame, s.headerSize) && j < |chunks| && Legal(Arrive(s.head, chunks[j], continuation, now))
    requires s.active && !s.hung && Midway(StoredAtHead(s, chunks[j]), chunks, frame, j) && j < s.head
    requires var w := WalkHere(s, frame); w.ending == Refused && !w.handoff && !w.shutting
    requires Cuts(again, frame', s.headerSize) && again <= tail
    requires var start := s.head - j;
      var stream := Padded(start, tail);
      var r := Reconnected(Step(s, Arrive(s.head, chunks[j], continuation, now)));
      && CalmStream(stream, s.headerSize) && HoldsOnly(s.packets, start + |chunks|, stream)
      && QuietRun(r, es, stream, start)
      && forall k :: start <= k < start + |again| ==> k in Arrivals(es)
    ensures var start := s.head - j;
      var r := Reconnected(Step(s, Arrive(s.head, chunks[j], continuation, now)));
      var q := RunOf(r, es);
      && start + |again| <= q.head <= start + |tail|
      && s.log + WalkHere(s, frame).out + WalkOf(frame', false).out <= q.log
      && s.commits + [start + |again| - 1] <= q.commits
  {
    hide Step, QuietRun, WalkOf, WalkHere, Padded, Cuts, Midway, CalmStream, HoldsOnly, Reconnected, CommittedAs, TakenBack,
      Passes, Drained, StoredAtHead, RunOf, Calm, Arrivals, Legal, Joined, SlotAt;
    SplitArrives(s, chunks, frame, j, continuation, now);
    var r0 := Step(s, Arrive(s.head, chunks[j], continuation, now));
    RefusedFields(s, r0, WalkHere(s, frame), s.head - j, |chunks|);
    RecoversFrom(s, r0, WalkHere(s, frame), s.head - j, |chunks|, again, frame', tail, es);
  }

  lemma RefusedFields(s: State, r: State, w: Walk, start: nat, m: nat)
    requires TakenBack(s, r, w, start, m) && !s.hung && !w.shutting
    ensures !r.hung && !r.shutting && r.commits == s.commits
  {
  }

  /** From the state after the refusal. */
  lemma RecoversFrom(s: State, r0: State, w: Walk, start: nat, m: nat,
                     again: seq<seq<byte>>, frame': seq<byte>, tail: seq<seq<byte>>, es: seq<Event>)
    requires TakenBack(s, r0, w, start, m) && !r0.hung && !r0.shutting && start > 0 && m > 0
    requires Cuts(again, frame', s.headerSize) && again <= tail
    requires CalmStream(Padded(start, tail), s.headerSize) && HoldsOnly(s.packets, start + m, Padded(start, tail))
    requires QuietRun(Reconnected(r0), es, Padded(start, tail), start)
    requires forall k :: start <= k < start + |again| ==> k in Arrivals(es)
    ensures var q := RunOf(Reconnected(r0), es);
      && start + |again| <= q.head <= start + |tail|
      && r0.log + WalkOf(frame', false).out <= q.log
      && r0.commits + [start + |again| - 1] <= q.commits
  {
    hide Step, Follows, QuietRun, InOrder, WalkOf, Padded, HeldIn, Cuts, CalmStream, HoldsOnly, Reconnected, TakenBack;
    var stream := Padded(start, tail);
    RefusedFollows(s, r0, w, start, m, tail);
    var r, arrived, base := Reconnected(r0), HeldIn(r0.packets, start, |stream|), Base(r0.log, r0.commits);
    QuietIsLegal(r, es, stream, start);
    RunFollows(r, es, stream, start, arrived, base);
    var q := RunOf(r, es);
    EnoughArrived(start, |again|, q.head, arrived + Arrivals(es));
    FollowsLog(q, stream, arrived + Arrivals(es), base);
    RestOfStream(start, tail, again, frame', q.head, s.headerSize);
    PrefixBehind(base.log, WalkOf(frame', false).out, InOrder(stream, q.head, s.headerSize).log, q.log);
    PrefixBehind(base.commits, [start + |again| - 1], InOrder(stream, q.head, s.headerSize).commits, q.commits);
  }

  lemma QuietIsLegal(s: State, es: seq<Event>, stream: seq<seq<byte>>, from: nat)
    requires QuietRun(s, es, stream, from)
    ensures forall i :: 0 <= i < |es| ==> Legal(es[i])
  {
  }

  lemma EnoughArrived(start: nat, m: nat, head: int, arrived: set<int>)
    requires start <= head && head !in arrived && forall k :: start <= k < start + m ==> k in arrived
    ensures start + m <= head
  {
  }

  lemma FollowsLog(s: State, stream: seq<seq<byte>>, arrived: set<int>, base: Base)
    requires Follows(s, stream, arrived, base)
    ensures 0 <= s.head <= |stream|
    ensures s.log == base.log + InOrder(stream, s.head, s.headerSize).log
    ensures s.commits == base.commits + InOrder(stream, s.head, s.headerSize).commits
  {
    hide InOrder;
  }

  lemma RestOfStream(start: nat, tail: seq<seq<byte>>, again: seq<seq<byte>>, frame': seq<byte>, head: nat, headerSize: nat)
    requires Cuts(again, frame', headerSize) && again <= tail && start + |again| <= head <= start + |tail|
    ensures var i := InOrder(Padded(start, tail), head, headerSize);
      WalkOf(frame', false).out <= i.log && [start + |again| - 1] <= i.commits
  {
    hide InOrder, WalkOf, Padded, Cuts;
    var stream := Padded(start, tail);
    assert stream[start..start + |again|] == again by {
      assert stream[start..][..|again|] == again;
    }
    IdealAtStart(start, tail, start, headerSize);
    SplitRoundTrip(stream, start, again, frame', headerSize);
    var w := WalkOf(frame', false);
    assert [] + w.out == w.out && [] + [start + |again| - 1] == [start + |again| - 1];
    IdealGrows(stream, start + |again|, head, headerSize);
  }

  lemma PrefixBehind<T>(base: seq<T>, front: seq<T>, all: seq<T>, whole: seq<T>)
    requires front <= all && whole == base + all
    ensures base + front <= whole
  {
  }

  // ----- A state with such a recovery -----

  /** A frame of opcode 1 that two datagrams carry. */
  function LongFrame(): (f: seq<byte>)
    ensures |f| == 516
  {
    Framing.Frame(Framing.Message(1, Zeros(512)))
  }

  lemma LongFrameFacts()
    ensures WalkOf(LongFrame(), false) == Walk(Passed, [Forward(1, Zeros(512))], false, false, false, false)
    ensures WordAt(LongFrame(), 0) == 516
    ensures Cuts([LongFrame()[..512], LongFrame()[512..]], LongFrame(), 512)
  {
    hide WalkOf, WordAt, Framing.Frame;
    var m := Framing.Message(1, Zeros(512));
    Framing.FrameHeader(m, []);
    assert LongFrame() + [] == LongFrame();
    assert [m][..0] == [];
    assert Framing.Frames([m]) == Framing.Frames([m][..0]) + Framing.Frame(m);
    assert Framing.Frames([m]) == LongFrame();
    PacketWalkLaws.PlainFramesForwarded([m]);
    assert PacketWalkLaws.Forwards([m]) == [Forward(1, Zeros(512))] + PacketWalkLaws.Forwards([m][1..]);
    TwoPieces(LongFrame(), 512);
  }

  lemma TwoPieces(f: seq<byte>, k: nat)
    requires k <= |f|
    ensures Joined([f[..k], f[k..]]) == f
  {
    var chunks := [f[..k], f[k..]];
    FirstJoined(chunks);
    NextJoined(chunks, 1);
    assert chunks[..2] == chunks;
  }

  /** The two pieces behind one packet of no account. */
  function LongStream(): seq<seq<byte>> { Padded(1, [LongFrame()[..512], LongFrame()[512..]]) }

  lemma LongStreamFacts()
    ensures |LongStream()| == 3 && LongStream()[1] == LongFrame()[..512] && LongStream()[2] == LongFrame()[512..]
    ensures CalmStream(LongStream(), 512)
  {
    hide WalkOf, WordAt, LongFrame, Joined, InOrder, Padded;
    LongFrameFacts();
    var chunks := [LongFrame()[..512], LongFrame()[512..]];
    var stream := LongStream();
    assert stream[1..] == chunks;
    assert stream[1] == stream[1..][0] && stream[2] == stream[1..][1];
    assert stream[1..3] == chunks;
    IdealAtStart(1, chunks, 1, 512);
    SplitRoundTrip(stream, 1, chunks, LongFrame(), 512);
  }

  /** A receiver without a client connection that waits for the first of two chunks. */
  ghost predicate Disconnected(s: State) {
    && s.active && !s.hung && !s.sector && !s.shutting && s.headerSize == 512 && s.head == 1 && s.waits == 0
    && s.splitLen == 0 && s.packets == map[0 := Done, 2 := Held(LongFrame()[512..])]
  }

  /** The chunk arrives, and the walk is refused for want of a connection. */
  lemma RefusedFirst(s: State)
    requires Disconnected(s)
    ensures var c0, chunks := LongFrame()[..512], [LongFrame()[..512], LongFrame()[512..]];
      && Midway(StoredAtHead(s, c0), chunks, LongFrame(), 0)
      && WalkHere(s, LongFrame()) == Walk(Refused, [], false, false, false, false)
      && TakenBack(s, Step(s, Arrive(1, c0, false, 0)), WalkHere(s, LongFrame()), 1, 2)
      && HoldsOnly(s.packets, 3, LongStream())
  {
    hide WalkOf, WordAt, LongFrame, Joined, Step, LongStream, TakenBack;
    LongFrameFacts();
    SplitArrives(s, [LongFrame()[..512], LongFrame()[512..]], LongFrame(), 0, false, 0);
  }

  /** Its two arrivals give up nothing. */
  lemma QuietlyAgain(s: State)
    requires Disconnected(s)
    ensures var c0, c1 := LongFrame()[..512], LongFrame()[512..];
      QuietRun(Reconnected(Step(s, Arrive(1, c0, false, 0))), [Arrive(2, c1, false, 0), Arrive(1, c0, false, 0)], LongStream(), 1)
  {
    hide WalkOf, LongFrame, Step, InOrder, Follows, CalmStream, Padded;
    RefusedFirst(s);
    LongStreamFacts();
    var c0, c1 := LongFrame()[..512], LongFrame()[512..];
    var r0 := Step(s, Arrive(1, c0, false, 0));
    RefusedFollows(s, r0, WalkHere(s, LongFrame()), 1, 2, [c0, c1]);
    var r, es := Reconnected(r0), [Arrive(2, c1, false, 0), Arrive(1, c0, false, 0)];
    ReconnectedFields(r0);
    assert !GivesUp(r, es[0]);
    StepFollows(r, es[0], LongStream(), 1, HeldIn(r0.packets, 1, 3), Base(r0.log, r0.commits));
    assert es[..0] == [] && es[..1] == [es[0]] && es[..1][..0] == [];
    assert RunOf(r, es[..1]) == Step(RunOf(r, es[..1][..0]), es[0]);
    assert !GivesUp(RunOf(r, es[..1]), es[1]);
  }

  lemma ReconnectedFields(s: State)
    requires !s.hung
    ensures Reconnected(s) == s.(active := true, sector := true)
  {
  }

  /** The recovery happens: the sequences asked for again arrive, the second first, and the client gets the frame. */
  lemma RecoveryExists(s: State)
    requires Disconnected(s)
    ensures var c0, c1 := LongFrame()[..512], LongFrame()[512..];
      var q := RunOf(Reconnected(Step(s, Arrive(1, c0, false, 0))), [Arrive(2, c1, false, 0), Arrive(1, c0, false, 0)]);
      q.head == 3 && s.log + [Forward(1, Zeros(512))] <= q.log && s.commits + [2] <= q.commits
  {
    hide WalkOf, LongFrame, Step, InOrder, CalmStream, Padded, Reconnected, QuietRun, HoldsOnly, Midway, TakenBack;
    LongFrameFacts();
    LongStreamFacts();
    RefusedFirst(s);
    QuietlyAgain(s);
    var c0, c1 := LongFrame()[..512], LongFrame()[512..];
    var es := [Arrive(2, c1, false, 0), Arrive(1, c0, false, 0)];
    BothArrive(es);
    SplitRecovers(s, [c0, c1], LongFrame(), 0, false, 0, [c0, c1], LongFrame(), [c0, c1], es);
    assert s.log + [] == s.log;
  }

  lemma BothArrive(es: seq<Event>)
    requires |es| == 2 && es[0].Arrive? && es[0].seqNo == 2 && es[1].Arrive? && es[1].seqNo == 1
    ensures 1 in Arrivals(es) && 2 in Arrivals(es)
  {
    assert es[..1][..0] == [];
    assert Arrivals(es[..1]) == Arrivals(es[..1][..0]) + {2};
  }
}
