/** Any number of threads calling `SendResponse` on one connection while sends succeed. Each call is split
    at the points where another thread can run: the check before the lock, taking the lock, storing the
    header, copying the payload, enciphering in place, sending, and releasing the lock. */
module Producers {
  import opened Bytes
  import opened Rc4
  import opened Framing

  datatype Phase = Idle | Checked | Locked | Headed | Built | Enciphered | Delivered

  datatype Thread = Thread(phase: Phase, msg: Message, todo: seq<Message>)

  /** The shared connection and its callers. `order` is the order in which the lock was taken. */
  datatype System = System(threads: seq<Thread>, owner: int, buffer: seq<byte>, cipher: Cipher,
                           wire: seq<byte>, order: seq<(nat, Message)>)

  const FREE: int := -1

  predicate Fits(m: Message) { |m.payload| <= MAX_BUFFER - HEADER }

  function Moved(s: System, t: nat, th: Thread): System
    requires t < |s.threads|
  {
    s.(threads := s.threads[t := th])
  }

  /** Thread `t` runs to its next scheduling point; blocked or finished threads stay where they are. */
  function Step(s: System, t: nat): (r: System)
    requires t < |s.threads| && |s.buffer| == MAX_BUFFER
    requires s.threads[t].phase !in {Idle, Checked} ==> Fits(s.threads[t].msg)
    ensures |r.buffer| == MAX_BUFFER && |r.threads| == |s.threads|
  {
    var th := s.threads[t];
    var m := th.msg;
    var total := HEADER + |m.payload|;
    match th.phase
    case Idle =>
      if th.todo == [] then s
      else if !Fits(th.todo[0]) then Moved(s, t, th.(todo := th.todo[1..]))
      else Moved(s, t, Thread(Checked, th.todo[0], th.todo[1..]))
    case Checked =>
      if s.owner != FREE then s
      else Moved(s, t, th.(phase := Locked)).(owner := t, order := s.order + [(t, m)])
    case Locked =>
      Moved(s, t, th.(phase := Headed)).(buffer := Spliced(s.buffer, 0, Le16(total) + Le16(m.opcode)))
    case Headed =>
      Moved(s, t, th.(phase := Built)).(buffer := Spliced(s.buffer, HEADER, m.payload))
    case Built =>
      Moved(s, t, th.(phase := Enciphered)).(
        buffer := Spliced(s.buffer, 0, Crypt(s.cipher, s.buffer[..total])), cipher := After(s.cipher, total))
    case Enciphered =>
      Moved(s, t, th.(phase := Delivered)).(wire := s.wire + s.buffer[..total])
    case Delivered =>
      Moved(s, t, th.(phase := Idle)).(owner := FREE)
  }

  function Initial(programs: seq<seq<Message>>, c0: Cipher, buffer: seq<byte>): System {
    System(seq(|programs|, t requires 0 <= t < |programs| => Thread(Idle, Message(0, []), programs[t])),
           FREE, buffer, c0, [], [])
  }

  // ----- What has been sent -----

  function Messages(order: seq<(nat, Message)>): (ms: seq<Message>)
    ensures |ms| == |order|
  {
    seq(|order|, i requires 0 <= i < |order| => order[i].1)
  }

  function ByThread(order: seq<(nat, Message)>, t: nat): seq<Message> {
    if order == [] then []
    else ByThread(order[..|order| - 1], t)
         + if order[|order| - 1].0 == t then [order[|order| - 1].1] else []
  }

  /** The part of a program that passes the size check. */
  function Accepted(program: seq<Message>): seq<Message> {
    if program == [] then []
    else (if Fits(program[0]) then [program[0]] else []) + Accepted(program[1..])
  }

  /** The messages whose frames are completely on the wire, in lock order. */
  function Sent(s: System): seq<Message>
    requires s.owner != FREE ==> 0 <= s.owner < |s.threads| && s.order != []
  {
    var ms := Messages(s.order);
    if s.owner == FREE || s.threads[s.owner].phase == Delivered then ms else ms[..|ms| - 1]
  }

  // ----- Invariant -----

  ghost predicate Owning(s: System) {
    && |s.buffer| == MAX_BUFFER
    && (s.owner == FREE || 0 <= s.owner < |s.threads|)
    && (forall t :: 0 <= t < |s.threads| ==> (s.threads[t].phase in {Idle, Checked} <==> s.owner != t))
    && (forall t :: 0 <= t < |s.threads| && s.threads[t].phase != Idle ==> Sendable(s.threads[t].msg))
    && (forall t :: 0 <= t < |s.threads| ==> forall m <- s.threads[t].todo :: m.opcode < 0x1_0000)
    && (forall p <- s.order :: Sendable(p.1))
    && (s.owner != FREE ==> s.order != [] && s.order[|s.order| - 1] == (s.owner, s.threads[s.owner].msg))
  }

  /** The current holder's frame, in whatever state the shared buffer has it. */
  ghost predicate HolderProgress(s: System, c0: Cipher)
    requires Owning(s) && s.owner != FREE
  {
    var th := s.threads[s.owner];
    var f := Frame(th.msg);
    var sent := Frames(Sent(s));
    match th.phase
    case Headed => s.buffer[..HEADER] == f[..HEADER] && s.cipher == After(c0, |sent|)
    case Built => s.buffer[..|f|] == f && s.cipher == After(c0, |sent|)
    case Enciphered => s.buffer[..|f|] == Crypt(After(c0, |sent|), f) && s.cipher == After(c0, |sent + f|)
    case _ => s.cipher == After(c0, |sent|)
  }

  ghost predicate Wired(s: System, c0: Cipher)
    requires Owning(s)
  {
    && s.wire == Crypt(c0, Frames(Sent(s)))
    && (if s.owner == FREE then s.cipher == After(c0, |Frames(Sent(s))|) else HolderProgress(s, c0))
  }

  ghost predicate Ordered(s: System, programs: seq<seq<Message>>) {
    && |programs| == |s.threads|
    && forall t :: 0 <= t < |s.threads| ==> Share(s, t) == Accepted(programs[t])
  }

  ghost predicate Inv(s: System, c0: Cipher, programs: seq<seq<Message>>) {
    Owning(s) && Wired(s, c0) && Ordered(s, programs)
  }

  lemma OwningKept(s: System, t: nat)
    requires Owning(s) && t < |s.threads|
    ensures Owning(Step(s, t))
  {
    hide Crypt, After, Spliced, Le16;
    var r := Step(s, t);
    assert forall p <- r.order :: p in s.order || p == (t, s.threads[t].msg);
    assert forall u :: 0 <= u < |s.threads| && u != t ==> r.threads[u] == s.threads[u];
    if s.threads[t].phase == Idle && s.threads[t].todo != [] {
      assert s.threads[t].todo[0] in s.threads[t].todo;
      assert forall m <- s.threads[t].todo[1..] :: m in s.threads[t].todo;
    }
  }

  lemma WiredKept(s: System, t: nat, c0: Cipher)
    requires Owning(s) && Wired(s, c0) && t < |s.threads|
    ensures Owning(Step(s, t)) && Wired(Step(s, t), c0)
  {
    OwningKept(s, t);
    var r := Step(s, t);
    var th := s.threads[t];
    match th.phase {
      case Idle =>
        assert Sent(r) == Sent(s);
      case Checked =>
        TakeLock(s, t, c0);
      case Locked =>
        StoreHeader(s, t, c0);
      case Headed =>
        CopyPayload(s, t, c0);
      case Built =>
        CryptFrame(s, t, c0);
      case Enciphered =>
        DeliverFrame(s, t, c0);
      case Delivered =>
        assert Sent(r) == Sent(s);
    }
  }

  lemma TakeLock(s: System, t: nat, c0: Cipher)
    requires Owning(s) && Wired(s, c0) && t < |s.threads| && s.threads[t].phase == Checked
    ensures Owning(Step(s, t)) && Wired(Step(s, t), c0)
  {
    OwningKept(s, t);
    var r := Step(s, t);
    if s.owner == FREE {
      assert Messages(r.order)[..|r.order| - 1] == Messages(s.order);
      assert Sent(r) == Sent(s);
    } else {
      assert r == s;
    }
  }

  lemma StoreHeader(s: System, t: nat, c0: Cipher)
    requires Owning(s) && Wired(s, c0) && t < |s.threads| && s.threads[t].phase == Locked
    ensures Owning(Step(s, t)) && Wired(Step(s, t), c0)
  {
    OwningKept(s, t);
    var r := Step(s, t);
    assert s.owner == t && Sent(r) == Sent(s);
    var f := Frame(s.threads[t].msg);
    assert r.buffer[..HEADER] == f[..HEADER];
  }

  lemma CopyPayload(s: System, t: nat, c0: Cipher)
    requires Owning(s) && Wired(s, c0) && t < |s.threads| && s.threads[t].phase == Headed
    ensures Owning(Step(s, t)) && Wired(Step(s, t), c0)
  {
    OwningKept(s, t);
    var r := Step(s, t);
    assert s.owner == t && Sent(r) == Sent(s);
    var f := Frame(s.threads[t].msg);
    assert f == f[..HEADER] + s.threads[t].msg.payload;
    assert r.buffer[..|f|] == s.buffer[..HEADER] + s.threads[t].msg.payload;
  }

  lemma CryptFrame(s: System, t: nat, c0: Cipher)
    requires Owning(s) && Wired(s, c0) && t < |s.threads| && s.threads[t].phase == Built
    ensures Owning(Step(s, t)) && Wired(Step(s, t), c0)
  {
    hide Crypt, After, Spliced, Frame, Frames, Le16;
    OwningKept(s, t);
    var r, f, sent := Step(s, t), Frame(s.threads[t].msg), Frames(Sent(s));
    assert s.owner == t && Sent(r) == Sent(s);
    SplicedSpan(s.buffer, 0, Crypt(s.cipher, f));
    AfterSplits(c0, |sent|, |f|);
  }

  lemma DeliverFrame(s: System, t: nat, c0: Cipher)
    requires Owning(s) && Wired(s, c0) && t < |s.threads| && s.threads[t].phase == Enciphered
    ensures Owning(Step(s, t)) && Wired(Step(s, t), c0)
  {
    OwningKept(s, t);
    var r := Step(s, t);
    var f, sent := Frame(s.threads[t].msg), Frames(Sent(s));
    assert s.owner == t;
    assert Sent(r)[..|Sent(r)| - 1] == Sent(s);
    assert Frames(Sent(r)) == sent + f;
    CryptSplits(c0, sent, f);
  }

  /** What thread `u` has sent, is about to send and has left to send. */
  ghost function Share(s: System, u: nat): seq<Message>
    requires u < |s.threads|
  {
    ByThread(s.order, u) + (if s.threads[u].phase == Checked then [s.threads[u].msg] else [])
    + Accepted(s.threads[u].todo)
  }

  lemma ShareKept(s: System, t: nat, u: nat)
    requires Owning(s) && t < |s.threads| && u < |s.threads|
    ensures Share(Step(s, t), u) == Share(s, u)
  {
    hide Crypt, After, Spliced, Le16;
    var r := Step(s, t);
    if r.order != s.order {
      assert r.order[..|r.order| - 1] == s.order;
    }
  }

  lemma OrderedKept(s: System, t: nat, programs: seq<seq<Message>>)
    requires Owning(s) && Ordered(s, programs) && t < |s.threads|
    ensures Ordered(Step(s, t), programs)
  {
    forall u | 0 <= u < |s.threads|
      ensures Share(Step(s, t), u) == Accepted(programs[u])
    {
      ShareKept(s, t, u);
    }
  }

  predicate ThreadIds(schedule: seq<nat>, n: nat) {
    forall i :: 0 <= i < |schedule| ==> schedule[i] < n
  }

  function Run(s: System, schedule: seq<nat>): (r: System)
    requires Owning(s) && ThreadIds(schedule, |s.threads|)
    ensures Owning(r) && |r.threads| == |s.threads|
  {
    if schedule == [] then s
    else
      var before := Run(s, schedule[..|schedule| - 1]);
      OwningKept(before, schedule[|schedule| - 1]);
      Step(before, schedule[|schedule| - 1])
  }

  lemma {:induction false} RunKeeps(s: System, schedule: seq<nat>, c0: Cipher, programs: seq<seq<Message>>)
    requires Inv(s, c0, programs) && ThreadIds(schedule, |s.threads|)
    ensures Inv(Run(s, schedule), c0, programs)
  {
    if schedule != [] {
      var prefix, t := schedule[..|schedule| - 1], schedule[|schedule| - 1];
      RunKeeps(s, prefix, c0, programs);
      WiredKept(Run(s, prefix), t, c0);
      OrderedKept(Run(s, prefix), t, programs);
    }
  }

  /** For every set of programs and every schedule, at every point: deciphering the wire and walking it, or
      reading it frame by frame, gives exactly the messages sent so far in lock order, and each thread's
      share of the lock order is an initial part of its own accepted messages. */
  lemma EveryInterleaving(programs: seq<seq<Message>>, c0: Cipher, buffer: seq<byte>, schedule: seq<nat>)
    requires |buffer| == MAX_BUFFER && ThreadIds(schedule, |programs|)
    requires forall p <- programs :: forall m <- p :: m.opcode < 0x1_0000
    ensures var s0 := Initial(programs, c0, buffer);
      Owning(s0) &&
      var s := Run(s0, schedule);
      && Walked(Crypt(c0, s.wire)) == Sent(s)
      && Received(c0, s.wire) == Sent(s)
      && forall t :: 0 <= t < |programs| ==> ByThread(s.order, t) <= Accepted(programs[t])
  {
    var s0 := Initial(programs, c0, buffer);
    forall t | 0 <= t < |programs|
      ensures forall m <- s0.threads[t].todo :: m.opcode < 0x1_0000
    {
      assert programs[t] in programs;
    }
    assert Frames(Sent(s0)) == [];
    RunKeeps(s0, schedule, c0, programs);
    var s := Run(s0, schedule);
    forall m <- Sent(s)
      ensures Sendable(m)
    {
      var i :| 0 <= i < |Sent(s)| && Sent(s)[i] == m;
      assert s.order[i] in s.order;
    }
    SessionRoundTrip(c0, Sent(s));
  }

  /** Once every thread has run out and the lock is free, each program has been sent completely. */
  lemma AllSent(programs: seq<seq<Message>>, c0: Cipher, s: System, t: nat)
    requires Inv(s, c0, programs) && t < |programs|
    requires s.threads[t].phase == Idle && s.threads[t].todo == []
    ensures ByThread(s.order, t) == Accepted(programs[t])
  {
  }
}
