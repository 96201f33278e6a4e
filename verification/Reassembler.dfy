/** The reliable packet sequence: every branch of the arrival, drain, resend and timer paths as a step on
    one state. Slots are indexed by unsigned 64-bit keys, as the C++ map is; the head is a signed long. */
module Reassembler {
  import opened Bytes
  import opened PacketWalk

  const WINDOW: int := 30          // how far ahead of the head an arrival is acted on
  const MAX_WAITS: int := 10       // early arrivals or timer retries before the head is skipped
  const KEPT_BEHIND: nat := 64     // processed sequences kept for duplicate detection
  const RESEND_INTERVAL: int := 300
  const KEY_SPACE: nat := 0x1_0000_0000_0000_0000

  /** A C `long` sequence number: -1 after a hand-off or master login, otherwise a position. */
  type Position = x: int | -1 <= x witness 0

  datatype Slot = Blank | Done | ReRequested | Held(payload: seq<byte>)

  type Slots = map<nat, Slot>

  datatype Nack = Nack(start: int, count: int)

  /** `commits` lists the sequences whose walk succeeded in the current epoch, and `clean` says that the
      epoch began with a reset, with no split packet in flight; both are history, read by no step. */
  datatype State = State(
    packets: Slots, head: Position, waits: int, splitLen: int, splitStart: Position, splitBuf: seq<byte>,
    active: bool, loginComplete: bool, sector: bool, shutting: bool, hung: bool, headerSize: nat,
    drops: int, packetTimer: int, resendAt: int,
    log: seq<Output>, nacks: seq<Nack>, commits: seq<int>, clean: bool)

  datatype Event =
    | Arrive(seqNo: int, payload: seq<byte>, continuation: bool, now: int)
    | Pump(now: int)
    | SetActive(on: bool)
    | SetLoginComplete(on: bool)
    | SetSector(on: bool)
    | MasterLogin

  // ----- Slots -----

  function Key(h: int): (k: nat)
    requires -(KEY_SPACE as int) <= h
  {
    if h < 0 then h + KEY_SPACE else h
  }

  function SlotAt(m: Slots, k: nat): Slot { if k in m then m[k] else Blank }

  /** Reading a slot through the map's index operator creates it blank. */
  function Touched(m: Slots, k: nat): Slots { if k in m then m else m[k := Blank] }

  ghost function HeldKeys(m: Slots): set<nat> { set k | k in m && m[k].Held? }

  function KeysAbove(m: Slots, k: nat): set<nat> { set j | j in m && j > k }

  lemma Extremes(s: set<nat>) returns (lo: nat, hi: nat)
    requires s != {}
    ensures lo in s && forall j <- s :: lo <= j
    ensures hi in s && forall j <- s :: j <= hi
  {
    var k :| k in s;
    lo, hi := k, k;
    var t := s - {k};
    assert forall j <- s :: j == k || j in t;
    if t != {} {
      var l, h := Extremes(t);
      lo, hi := if k <= l then k else l, if k >= h then k else h;
    }
  }

  lemma ExtremesExist(s: set<nat>)
    requires s != {}
    ensures exists k :: k in s && forall j <- s :: k <= j
    ensures exists k :: k in s && forall j <- s :: j <= k
  {
    var lo, hi := Extremes(s);
  }

  function Least(s: set<nat>): (k: nat)
    requires s != {}
    ensures k in s && forall j <- s :: k <= j
  {
    ExtremesExist(s);
    var k :| k in s && forall j <- s :: k <= j;
    k
  }

  function Greatest(s: set<nat>): (k: nat)
    requires s != {}
    ensures k in s && forall j <- s :: j <= k
  {
    ExtremesExist(s);
    var k :| k in s && forall j <- s :: j <= k;
    k
  }

  /** `m` with every slot from `lo` to `hi` marked as re-requested. */
  function Marked(m: Slots, lo: nat, hi: int): (r: Slots)
    ensures forall k: nat :: k in r <==> k in m || lo <= k <= hi
    ensures forall k: nat :: k in r ==> r[k] == if lo <= k <= hi then ReRequested else m[k]
    decreases hi
  {
    if lo > hi then m else Marked(m, lo, hi - 1)[hi := ReRequested]
  }

  /** Erases from the front while the first key is more than the kept window behind the head. */
  function Pruned(m: Slots, h: nat): (r: Slots)
    ensures r.Keys <= m.Keys && forall k :: k in r ==> r[k] == m[k]
    decreases |m|
  {
    if m == map[] then m
    else
      var first := Least(m.Keys);
      if (first + KEPT_BEHIND) % KEY_SPACE < h then Pruned(m - {first}, h) else m
  }

  // ----- The drain -----

  predicate HeadHeld(s: State)
  {
    SlotAt(s.packets, Key(s.head)).Held?
  }

  function FirstChunk(payload: seq<byte>, headerSize: nat): (c: seq<byte>)
    ensures |c| == headerSize
  {
    if headerSize <= |payload| then payload[..headerSize] else payload + Zeros(headerSize - |payload|)
  }

  /** The length word that announces a packet split over several datagrams. */
  predicate StartsSplit(payload: seq<byte>, headerSize: nat) {
    headerSize < WordAt(payload, 0) < 20000
  }

  /** Without a connection to the client the walk fails at once. */
  function WalkHere(s: State, buf: seq<byte>): Walk {
    if s.sector then WalkOf(buf, s.shutting) else Walk(Refused, [], false, false, false, s.shutting)
  }

  /** Output and side effects of a walk. A start completes the login, which forgets the losses counted so far.
      A hand-off empties the map and ends the epoch. */
  function Applied(s: State, w: Walk): State {
    s.(log := s.log + w.out, shutting := w.shutting, active := s.active && !w.deactivated,
       loginComplete := s.loginComplete || w.started, drops := if w.started then 0 else s.drops,
       packets := if w.handoff then map[] else s.packets, head := if w.handoff then -1 else s.head,
       clean := s.clean && !w.handoff)
  }

  /** Frees the head slot: past it if the packet passed, else leaving it to arrive again. */
  function Finished(s: State, pass: bool): State {
    s.(waits := 0, packets := s.packets[Key(s.head) := if pass then Done else Blank],
       head := if pass then s.head + 1 else s.head)
  }

  /** The bit pattern of `v` read as a C `long`. */
  function AsLong(v: int): int {
    var low := v % KEY_SPACE;
    if low < 0x8000_0000_0000_0000 then low else low - KEY_SPACE
  }

  /** The low half of `v` read as an `int32_t`, as the fields of the request hold it. */
  function AsInt32(v: int): int {
    var low := v % 0x1_0000_0000;
    if low < 0x8000_0000 then low else low - 0x1_0000_0000
  }

  function Requested(s: State, start: int, count: int, now: int): State {
    s.(nacks := s.nacks + [Nack(AsInt32(start), AsInt32(count))], resendAt := now)
  }

  /** A failed reassembly re-requests every sequence of the split and goes back to its start. A hand-off
      inside the failed walk leaves the head at -1, the largest key, and the loop never ends. */
  function RolledBack(s: State, now: int): State {
    if s.head < 0 then s.(hung := true)
    else
      Requested(s.(packets := Marked(s.packets, Key(s.splitStart), s.head), head := s.splitStart),
                s.splitStart, s.head - s.splitStart + 1, now)
  }

  /** What one pass of the drain loop decides about the datagram at the head. */
  datatype Verdict = Pass | Fail | Return

  /** The state when the walker is done with a buffer, and what becomes of the head slot. */
  function Walked(s: State, w: Walk): (State, Verdict) {
    (Applied(s, w).(hung := s.hung || w.ending == Hung,
                    commits := if w.ending == Passed then s.commits + [s.head] else s.commits),
     match w.ending case Hung => Return case Passed => Pass case Refused => Fail)
  }

  /** A datagram met with no split in flight: it opens one, is skipped behind a continuation arrival, or
      is walked. */
  function Opening(s: State, payload: seq<byte>, continuation: bool): (State, Verdict) {
    if StartsSplit(payload, s.headerSize) then
      (s.(splitLen := WordAt(payload, 0) - s.headerSize, splitStart := s.head,
          splitBuf := FirstChunk(payload, s.headerSize)), Pass)
    else if continuation then (s, Pass)
    else Walked(s, WalkHere(s, payload))
  }

  /** A datagram met with a split in flight is its next chunk; the last one sets off the walk. */
  function Continuing(s: State, payload: seq<byte>, now: int): (State, Verdict) {
    var s1 := s.(splitBuf := s.splitBuf + payload, splitLen := s.splitLen - |payload|);
    if s1.splitLen > 0 then (s1, Pass) else Completed(s1, now)
  }

  function Completed(s: State, now: int): (State, Verdict) {
    var (s1, v) := Walked(s.(splitLen := 0), WalkHere(s, s.splitBuf));
    if v == Fail then (RolledBack(s1, now), Return) else (s1, v)
  }

  function Judged(s: State, continuation: bool, now: int): (State, Verdict)
    requires HeadHeld(s)
  {
    var payload := s.packets[Key(s.head)].payload;
    if payload == [] then (s.(splitLen := 0), Pass)
    else if s.splitLen == 0 then Opening(s, payload, continuation)
    else Continuing(s, payload, now)
  }

  /** One pass of the drain loop over a held head slot; the flag says whether the loop goes on. */
  function Process(s: State, continuation: bool, now: int): (State, bool)
    requires HeadHeld(s)
  {
    var (s1, v) := Judged(s, continuation, now);
    if v == Return then (s1, false) else (Finished(s1, v == Pass), true)
  }

  /** The head and the slots are as they were, or a hand-off has emptied the map. */
  ghost predicate SlotsKept(s: State, s1: State) {
    (s1.packets == s.packets && s1.head == s.head) || s1.packets == map[]
  }

  lemma WalkedKeepsSlots(s: State, w: Walk)
    ensures SlotsKept(s, Walked(s, w).0)
  {
  }

  lemma CompletedKeepsSlots(s: State, now: int)
    ensures Completed(s, now).1 != Return ==> SlotsKept(s, Completed(s, now).0)
  {
    hide WalkHere, Walked, RolledBack;
    WalkedKeepsSlots(s.(splitLen := 0), WalkHere(s, s.splitBuf));
  }

  lemma JudgedKeepsSlots(s: State, continuation: bool, now: int)
    requires HeadHeld(s)
    ensures Judged(s, continuation, now).1 != Return ==> SlotsKept(s, Judged(s, continuation, now).0)
  {
    hide WalkHere, StartsSplit, FirstChunk, Walked, Completed, WordAt;
    var payload := s.packets[Key(s.head)].payload;
    WalkedKeepsSlots(s, WalkHere(s, payload));
    var s1 := s.(splitBuf := s.splitBuf + payload, splitLen := s.splitLen - |payload|);
    CompletedKeepsSlots(s1, now);
  }

  /** Every pass after which the loop goes on has released the datagram it processed. */
  lemma ProcessReleases(s: State, continuation: bool, now: int)
    requires HeadHeld(s) && Process(s, continuation, now).1
    ensures HeldKeys(Process(s, continuation, now).0.packets) < HeldKeys(s.packets)
  {
    JudgedKeepsSlots(s, continuation, now);
    var (s1, v) := Judged(s, continuation, now);
    var r := Finished(s1, v == Pass);
    assert Key(s.head) in HeldKeys(s.packets) && Key(s.head) !in HeldKeys(r.packets);
    assert HeldKeys(r.packets) <= HeldKeys(s.packets);
  }

  /** The drain loop. The flag is false if the call returned from inside it. */
  function DrainLoop(s: State, continuation: bool, now: int): (State, bool)
    decreases HeldKeys(s.packets)
  {
    var s0 := s.(packets := Touched(s.packets, Key(s.head)));
    assert HeldKeys(s0.packets) == HeldKeys(s.packets);
    if !HeadHeld(s0) then (s0, true)
    else
      var (s1, more) := Process(s0, continuation, now);
      if more then
        ProcessReleases(s0, continuation, now);
        DrainLoop(s1, continuation, now)
      else (s1, false)
  }

  lemma DrainLoopEnds(s: State, continuation: bool, now: int)
    requires !HeadHeld(s) && Key(s.head) in s.packets
    ensures DrainLoop(s, continuation, now) == (s, true)
  {
    hide Process;
  }

  /** Unrolls one pass of the drain loop. */
  lemma DrainLoopStep(s: State, continuation: bool, now: int)
    requires HeadHeld(s)
    ensures var (s1, more) := Process(s, continuation, now);
      && DrainLoop(s, continuation, now) == (if more then DrainLoop(s1, continuation, now) else (s1, false))
      && (more ==> HeldKeys(s1.packets) < HeldKeys(s.packets))
  {
    hide Process;
    assert s.(packets := Touched(s.packets, Key(s.head))) == s;
    if Process(s, continuation, now).1 {
      ProcessReleases(s, continuation, now);
    }
  }

  function Drained(s: State, continuation: bool, now: int): State
  {
    var (s1, toEnd) := DrainLoop(s, continuation, now);
    if toEnd then s1.(packets := Pruned(s1.packets, Key(s1.head))) else s1
  }

  // ----- Events -----

  function Reset(s: State): State {
    s.(head := 0, packets := map[], drops := 0, packetTimer := 100, commits := [], clean := s.splitLen == 0)
  }

  /** Skips a head that has been waited for too long. */
  function GivenUp(s: State): State { s.(head := s.head + 1, waits := 0) }

  function LossTimer(drops: int, timer: int): int {
    if drops > 500 then 2000 else if drops > 40 then 500 else timer
  }

  function AskedForHead(s: State, now: int): State {
    Requested(s.(packets := s.packets[Key(s.head) := ReRequested], drops := s.drops + 1,
                 packetTimer := LossTimer(s.drops + 1, s.packetTimer)), s.head, 1, now)
  }

  /** An arrival ahead of the head: ask once for a missing head, skip it after too long a wait, or drain. */
  function Early(s: State, continuation: bool, now: int): State {
    var s1 := s.(waits := s.waits + 1, packets := Touched(s.packets, Key(s.head)));
    var slot := s1.packets[Key(s1.head)];
    if slot == Blank then
      if s1.waits > MAX_WAITS then GivenUp(s1)
      else AskedForHead(s1, now)
    else if slot == ReRequested && s1.waits > MAX_WAITS then GivenUp(s1)
    else Drained(s1, continuation, now)
  }

  /** A datagram of an active connection in its slot, sequence 0 with a fresh stream. */
  function Stored(s: State, seqNo: int, payload: seq<byte>): State
    requires -0x8000_0000 <= seqNo
  {
    var s1 := if seqNo == 0 then Reset(s) else s;
    s1.(packets := s1.packets[Key(seqNo) := Held(payload)])
  }

  /** The datagram is stored before the range test, over whatever its slot held. */
  function Arrived(s: State, seqNo: int, payload: seq<byte>, continuation: bool, now: int): State
    requires -0x8000_0000 <= seqNo < 0x8000_0000
  {
    var s1 := if seqNo == 0 then Reset(s) else s;
    if !s1.active then s1
    else
      var s2 := s1.(packets := s1.packets[Key(seqNo) := Held(payload)]);
      if seqNo > s2.head + WINDOW then s2
      else if seqNo > s2.head then Early(s2, continuation, now)
      else Drained(s2, continuation, now)
  }

  /** Some key lies beyond the head, so there is something to recover. */
  predicate Outstanding(s: State)
  {
    s.packets != map[] && Greatest(s.packets.Keys) > Key(s.head)
  }

  /** How many sequences lie between the head and the next stored one, as a C `long`. */
  function HoleSize(m: Slots, head: Position): int
  {
    var above := KeysAbove(m, Key(head));
    if above == {} then 1 else AsLong(Least(above) - Key(head))
  }

  /** The timer found the head still missing: skip it, or ask again for the whole hole. */
  function Retried(s: State, now: int): State {
    var s1 := s.(waits := s.waits + 1);
    if s1.waits > MAX_WAITS then Drained(GivenUp(s1), false, now)
    else
      Requested(s1.(packets := s1.packets[Key(s1.head) := ReRequested], drops := s1.drops + 1),
                s1.head, HoleSize(s1.packets, s1.head), now)
  }

  function Pumped(s: State, now: int): State {
    if !s.loginComplete || !s.active || s.packets == map[] || !Outstanding(s) then s
    else
      var s1 := s.(packets := Touched(s.packets, Key(s.head)));
      var slot := s1.packets[Key(s.head)];
      if slot != Blank && slot != ReRequested then Drained(s1, false, now)
      else if now - s1.resendAt < RESEND_INTERVAL then s1
      else Retried(s1, now)
  }

  predicate Legal(e: Event) {
    e.Arrive? ==> -0x8000_0000 <= e.seqNo < 0x8000_0000 && |e.payload| <= 0x7FFF - 12
  }

  /** One event. A thread stuck in a walk takes no further part. */
  function Step(s: State, e: Event): State
    requires Legal(e)
  {
    if s.hung then s
    else
      match e
      case Arrive(seqNo, payload, continuation, now) => Arrived(s, seqNo, payload, continuation, now)
      case Pump(now) => Pumped(s, now)
      case SetActive(on) => s.(active := on)
      case SetLoginComplete(on) => s.(loginComplete := on, drops := 0)
      case SetSector(on) => s.(sector := on)
      case MasterLogin => s.(head := -1, clean := false)
  }

  function Initial(headerSize: nat): State {
    State(map[], 0, 0, 0, 0, [], false, false, false, false, false, headerSize, 0, 0, 0, [], [], [], true)
  }
}
