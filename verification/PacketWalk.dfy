/** The walk over the inner `[size, opcode, data]` frames of one reliable packet. */
module PacketWalk {
  import opened Bytes

  const MAX_FRAME: int := 25000  // longest frame the client connection accepts

  /** What the client side sees: a frame forwarded verbatim, or a control opcode given to its handler. */
  datatype Output = Forward(opcode: int, payload: seq<byte>) | Handled(opcode: int, payload: seq<byte>)

  /** A zero-length frame with an accepted opcode keeps the walk on the same bytes for ever. */
  datatype Ending = Passed | Refused | Hung

  /** Output so far and the connection-state side effects of the intercepted opcodes. */
  datatype Walk = Walk(ending: Ending, out: seq<Output>, handoff: bool, deactivated: bool, started: bool,
                       shutting: bool)

  function SilentlyConsumed(): set<int> { {0x2013, 0x2014, 0x2025, 0x202a, 0x202b, 0x202d, 0x202e} }

  function HandledHere(): set<int> { {0x2011, 0x2012, 0x2018, 0x2019, 0x2020} }

  /** One inner frame. `length` counts the four header bytes. */
  function Dispatched(w: Walk, opcode: int, length: int, payload: seq<byte>): Walk {
    if opcode == 0x001B && length < 8 then w
    else if opcode in SilentlyConsumed() then w
    else if opcode == 0x100A then w.(shutting := true)
    else if opcode in HandledHere() then w.(out := w.out + [Handled(opcode, payload)])
    else if 0 < opcode <= 0xFE then
      var w' := Preprocessed(w, opcode);
      if 4 <= length <= MAX_FRAME then w'.(out := w'.out + [Forward(opcode, payload)]) else w'
    else w.(ending := Refused)
  }

  /** Log-off, server hand-off and start change connection state before they are forwarded. */
  function Preprocessed(w: Walk, opcode: int): Walk {
    match opcode
    case 0x00BA => w.(deactivated := true)
    case 0x003A => w.(deactivated := true, handoff := true)
    case 0x0005 => w.(started := true)
    case _ => w
  }

  function PayloadAt(buf: seq<byte>, i: nat, length: int): seq<byte>
    requires i + length <= |buf|
  {
    if length >= 4 then buf[i + 4..i + length] else []
  }

  /** One pass of the loop at offset `i`: the walk so far, the next offset, and whether the loop goes on. */
  function FrameStep(buf: seq<byte>, i: nat, w: Walk): (r: (Walk, nat, bool))
    requires i < AsShort(|buf|)
    ensures r.1 <= |buf| && (r.2 ==> i < r.1)
  {
    var length, opcode := AsShort(WordAt(buf, i)), AsShort(WordAt(buf, i + 2));
    if length > AsShort(|buf|) - i || length < 0 then (w, i, false)
    else
      var w' := Dispatched(w, opcode, length, PayloadAt(buf, i, length));
      if w'.ending == Refused then (w', i, false)
      else if length == 0 then (if w'.shutting then w' else w'.(ending := Hung), i, false)
      else (w', i + length, true)
  }

  function WalkFrom(buf: seq<byte>, i: nat, w: Walk): Walk
    decreases |buf| - i
  {
    if i >= AsShort(|buf|) || w.shutting then w
    else
      var (w', next, more) := FrameStep(buf, i, w);
      if more then WalkFrom(buf, next, w') else w'
  }

  /** The whole walk of a packet, from the current shut-down flag. */
  function WalkOf(buf: seq<byte>, shutting: bool): Walk {
    WalkFrom(buf, 0, Walk(Passed, [], false, false, false, shutting))
  }

  /** A walk that passes without touching connection state. */
  predicate Calm(w: Walk) { w.ending == Passed && !w.handoff && !w.deactivated && !w.shutting }
}
