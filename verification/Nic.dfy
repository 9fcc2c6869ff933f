/** The e1000 descriptor rings as a two-party protocol.

    The driver's steps are the memory accesses of `receive_packet` and
    `send_packet`, in order.  The device follows the head/tail rule of
    sections 3.2.6 and 3.4 of the Intel 8254x Software Developer's Manual:
    descriptors from head up to, but excluding, tail are its own, and
    head == tail is an empty ring.  Any device step may fall between any two
    driver steps. */
module Nic {
  import opened Prelude

  const RING := 8
  const PACKET_SIZE := 2048

  type Index = i: int | 0 <= i < RING

  function Succ(i: Index): (r: Index)
    ensures r == if i == RING - 1 then 0 else i + 1
  {
    (i + 1) % RING
  }

  /** Slot reached `n` places after `i`, going round. */
  function Plus(i: Index, n: nat): Index
    requires n <= RING
  {
    if i + n >= RING then i + n - RING else i + n
  }

  /** How many places `j` lies after `from`, going round. */
  function Distance(j: Index, from: Index): Index {
    if j >= from then j - from else j + RING - from
  }

  /** A packet buffer. */
  predicate IsBuffer(b: Bytes) {
    |b| == PACKET_SIZE
  }

  // ---------------------------------------------------------------------
  // Receive side

  datatype RxSlot = RxSlot(buffer: Bytes, length: nat, done: bool, eop: bool, errors: byte)

  /** A descriptor as the device completed it. */
  datatype Frame = Frame(buffer: Bytes, length: nat, eop: bool, errors: byte)

  datatype RxPc =
    | RxIdle
    | RxChecked(eop: bool)                 // status had DD set
    | RxCopied(packet: Option<Bytes>)      // payload copied out
    | RxCleared(packet: Option<Bytes>)     // status rewritten to 0

  datatype RxRing = RxRing(
    slots: seq<RxSlot>,                    // DMA memory
    head: Index, tail: Index,              // RDH and RDT
    next: Index, pc: RxPc,                 // driver
    written: seq<Frame>, consumed: nat, handed: seq<Bytes>   // history
  )

  predicate Acceptable(f: Frame) {
    f.eop && f.errors == 0 && f.length <= PACKET_SIZE && f.length <= |f.buffer|
  }

  /** What the driver hands up for one completed descriptor. */
  function Payload(f: Frame): Option<Bytes> {
    if Acceptable(f) then Some(f.buffer[..f.length]) else None
  }

  function Append(packets: seq<Bytes>, p: Option<Bytes>): seq<Bytes> {
    if p.Some? then packets + [p.value] else packets
  }

  /** The acceptable payloads among some frames, in order. */
  function Delivered(frames: seq<Frame>): seq<Bytes> {
    if frames == [] then [] else Append(Delivered(frames[..|frames| - 1]), Payload(frames[|frames| - 1]))
  }

  predicate RxShaped(r: RxRing) {
    |r.slots| == RING && forall j :: 0 <= j < RING ==> IsBuffer(r.slots[j].buffer)
  }

  /** Payload bytes land in the buffer at the head. */
  function RxDma(r: RxRing, bytes: Bytes): RxRing
    requires RxShaped(r)
  {
    if r.head == r.tail || !IsBuffer(bytes) then r
    else r.(slots := r.slots[r.head := r.slots[r.head].(buffer := bytes)])
  }

  /** The device completes the descriptor at the head. */
  function RxWriteBack(r: RxRing, length: nat, eop: bool, errors: byte): RxRing
    requires RxShaped(r)
  {
    if r.head == r.tail then r
    else
      var slot := RxSlot(r.slots[r.head].buffer, length, true, eop, errors);
      r.(slots := r.slots[r.head := slot], head := Succ(r.head),
         written := r.written + [Frame(slot.buffer, length, eop, errors)])
  }

  function BeginReceive(r: RxRing): RxRing
    requires RxShaped(r)
  {
    if r.pc.RxIdle? && r.slots[r.next].done then r.(pc := RxChecked(r.slots[r.next].eop)) else r
  }

  /** The driver's next access of `receive_packet`. */
  function RxResume(r: RxRing): RxRing
    requires RxShaped(r)
  {
    match r.pc
    case RxIdle => r
    case RxChecked(eop) =>
      var slot := r.slots[r.next];
      r.(pc := RxCopied(Payload(Frame(slot.buffer, slot.length, eop, slot.errors))))
    case RxCopied(packet) =>
      r.(slots := r.slots[r.next := r.slots[r.next].(done := false, eop := false)], pc := RxCleared(packet))
    case RxCleared(packet) =>
      r.(tail := r.next, next := Succ(r.next), pc := RxIdle,
         consumed := r.consumed + 1, handed := Append(r.handed, packet))
  }

  predicate Holds(slot: RxSlot, f: Frame) {
    slot.buffer == f.buffer && slot.length == f.length && slot.errors == f.errors &&
    (slot.done ==> slot.eop == f.eop)
  }

  /** The slots from `next` hold the unconsumed frames, in order. */
  predicate RxContents(r: RxRing, pending: nat)
    requires RxShaped(r) && r.consumed + pending == |r.written|
  {
    forall j: Index :: Distance(j, r.next) < pending ==>
      Holds(r.slots[j], r.written[r.consumed + Distance(j, r.next)])
  }

  /** DD is set exactly on the unconsumed frames. */
  predicate RxFlags(r: RxRing, pending: nat)
    requires RxShaped(r)
  {
    forall j: Index ::
      r.slots[j].done <==> Distance(j, r.next) < pending && !(r.pc.RxCleared? && j == r.next)
  }

  predicate RxInv(r: RxRing) {
    && RxShaped(r)
    && r.consumed <= |r.written|
    && var pending := |r.written| - r.consumed;
    && pending <= RING - 1
    && r.tail == Plus(r.next, RING - 1)
    && r.head == Plus(r.next, pending)
    && RxContents(r, pending)
    && RxFlags(r, pending)
    && (r.pc.RxChecked? ==> pending > 0 && r.pc.eop == r.written[r.consumed].eop)
    && (r.pc.RxCopied? || r.pc.RxCleared? ==>
          pending > 0 && r.pc.packet == Payload(r.written[r.consumed]))
    && r.handed == Delivered(r.written[..r.consumed])
  }

  lemma RxDmaKeepsInv(r: RxRing, bytes: Bytes)
    requires RxInv(r)
    ensures RxInv(RxDma(r, bytes))
  {
  }

  lemma RxWriteBackKeepsInv(r: RxRing, length: nat, eop: bool, errors: byte)
    requires RxInv(r)
    ensures RxInv(RxWriteBack(r, length, eop, errors))
  {
    var t := RxWriteBack(r, length, eop, errors);
    assert t.written[..t.consumed] == r.written[..r.consumed];
  }

  lemma BeginReceiveKeepsInv(r: RxRing)
    requires RxInv(r)
    ensures RxInv(BeginReceive(r))
  {
    assert Distance(r.next, r.next) == 0;
  }

  lemma DeliveredSnoc(frames: seq<Frame>, f: Frame)
    ensures Delivered(frames + [f]) == Append(Delivered(frames), Payload(f))
  {
    assert (frames + [f])[..|frames|] == frames;
  }

  lemma RxCopyKeepsInv(r: RxRing)
    requires RxInv(r) && (r.pc.RxChecked? || r.pc.RxCopied?)
    ensures RxInv(RxResume(r))
  {
    assert Distance(r.next, r.next) == 0;
    assert Holds(r.slots[r.next], r.written[r.consumed]);
  }

  lemma RxReturnKeepsInv(r: RxRing)
    requires RxInv(r) && r.pc.RxCleared?
    ensures RxInv(RxResume(r))
  {
    var t := RxResume(r);
    assert r.written[..t.consumed] == r.written[..r.consumed] + [r.written[r.consumed]];
    DeliveredSnoc(r.written[..r.consumed], r.written[r.consumed]);
    forall j: Index | j != r.next ensures Distance(j, t.next) == Distance(j, r.next) - 1 {
    }
  }

  lemma RxResumeKeepsInv(r: RxRing)
    requires RxInv(r)
    ensures RxInv(RxResume(r))
  {
    if r.pc.RxCleared? {
      RxReturnKeepsInv(r);
    } else if !r.pc.RxIdle? {
      RxCopyKeepsInv(r);
    }
  }

  // ---------------------------------------------------------------------
  // Transmit side

  datatype TxSlot = TxSlot(buffer: Bytes, length: nat, done: bool)

  datatype TxPc =
    | TxIdle
    | TxChecked(outgoing: Bytes)           // length fits, DD was set
    | TxFilled(outgoing: Bytes)            // buffer written
    | TxArmed                              // length, command and status written

  datatype TxRing = TxRing(
    slots: seq<TxSlot>,
    head: Index, tail: Index,              // TDH and TDT
    next: Index, pc: TxPc,
    flight: Option<Bytes>,                 // packet the device is sending
    accepted: seq<Bytes>, sent: seq<Bytes> // history
  )

  predicate TxShaped(t: TxRing) {
    && |t.slots| == RING
    && (forall j :: 0 <= j < RING ==> IsBuffer(t.slots[j].buffer) && t.slots[j].length <= PACKET_SIZE)
    && (t.pc.TxChecked? || t.pc.TxFilled? ==> |t.pc.outgoing| <= PACKET_SIZE)
  }

  /** `transmit_ready`. */
  predicate TransmitReady(t: TxRing)
    requires TxShaped(t)
  {
    t.slots[t.next].done
  }

  function TxFetch(t: TxRing): TxRing
    requires TxShaped(t)
  {
    if t.head == t.tail || t.flight.Some? then t
    else t.(flight := Some(t.slots[t.head].buffer[..t.slots[t.head].length]))
  }

  function TxWriteBack(t: TxRing): TxRing
    requires TxShaped(t)
  {
    if t.flight.None? then t
    else t.(slots := t.slots[t.head := t.slots[t.head].(done := true)], head := Succ(t.head),
            sent := t.sent + [t.flight.value], flight := None)
  }

  function BeginSend(t: TxRing, packet: Bytes): TxRing
    requires TxShaped(t)
  {
    if t.pc.TxIdle? && |packet| <= PACKET_SIZE && TransmitReady(t) then t.(pc := TxChecked(packet)) else t
  }

  /** The driver's next access of `send_packet`. */
  function TxResume(t: TxRing): TxRing
    requires TxShaped(t)
  {
    match t.pc
    case TxIdle => t
    case TxChecked(packet) =>
      var slot := t.slots[t.next];
      t.(slots := t.slots[t.next := slot.(buffer := packet + slot.buffer[|packet|..])], pc := TxFilled(packet))
    case TxFilled(packet) =>
      t.(slots := t.slots[t.next := t.slots[t.next].(length := |packet|, done := false)], pc := TxArmed,
         accepted := t.accepted + [packet])
    case TxArmed => t.(next := Succ(t.next), tail := Succ(t.next), pc := TxIdle)
  }

  /** Packets accepted and not yet sent. */
  function Outstanding(t: TxRing): int {
    |t.accepted| - |t.sent|
  }

  /** DD is clear exactly on the accepted, unsent packets... */
  predicate TxFlags(t: TxRing)
    requires TxShaped(t)
  {
    forall j: Index :: !t.slots[j].done <==> Distance(j, t.head) < Outstanding(t)
  }

  /** ...and those slots hold them in order. */
  predicate TxContents(t: TxRing)
    requires TxShaped(t) && 0 <= Outstanding(t)
  {
    forall j: Index :: Distance(j, t.head) < Outstanding(t) ==>
      t.slots[j].buffer[..t.slots[j].length] == t.accepted[|t.sent| + Distance(j, t.head)]
  }

  predicate TxInv(t: TxRing) {
    && TxShaped(t)
    && 0 <= Outstanding(t) <= RING
    && (t.pc.TxArmed? ==> Outstanding(t) > 0)
    && t.next == t.tail == Plus(t.head, if t.pc.TxArmed? then Outstanding(t) - 1 else Outstanding(t))
    && t.sent == t.accepted[..|t.sent|]
    && TxFlags(t)
    && TxContents(t)
    && (t.pc.TxChecked? || t.pc.TxFilled? ==> t.slots[t.next].done)
    && (t.pc.TxFilled? ==> t.slots[t.next].buffer[..|t.pc.outgoing|] == t.pc.outgoing)
    && (t.flight.Some? ==>
          Outstanding(t) > (if t.pc.TxArmed? then 1 else 0) && t.flight.value == t.accepted[|t.sent|])
  }

  lemma TxFetchKeepsInv(t: TxRing)
    requires TxInv(t)
    ensures TxInv(TxFetch(t))
  {
    assert Distance(t.head, t.head) == 0;
  }

  lemma TxWriteBackKeepsInv(t: TxRing)
    requires TxInv(t)
    ensures TxInv(TxWriteBack(t))
  {
    var u := TxWriteBack(t);
    if u != t {
      assert u.sent == t.accepted[..|u.sent|];
      forall j: Index | j != t.head ensures Distance(j, u.head) == Distance(j, t.head) - 1 {
      }
      assert Distance(t.head, u.head) == RING - 1;
    }
  }

  lemma BeginSendKeepsInv(t: TxRing, packet: Bytes)
    requires TxInv(t)
    ensures TxInv(BeginSend(t, packet))
  {
  }

  lemma TxFillKeepsInv(t: TxRing)
    requires TxInv(t) && t.pc.TxChecked?
    ensures TxInv(TxResume(t))
  {
    var u := TxResume(t);
    assert u.slots[t.next].buffer[..|t.pc.outgoing|] == t.pc.outgoing;
  }

  lemma TxArmKeepsInv(t: TxRing)
    requires TxInv(t) && t.pc.TxFilled?
    ensures TxInv(TxResume(t))
  {
    var u := TxResume(t);
    assert Outstanding(t) < RING;
    assert Distance(t.next, t.head) == Outstanding(t);
  }

  lemma TxResumeKeepsInv(t: TxRing)
    requires TxInv(t)
    ensures TxInv(TxResume(t))
  {
    if t.pc.TxChecked? {
      TxFillKeepsInv(t);
    } else if t.pc.TxFilled? {
      TxArmKeepsInv(t);
    }
  }
}
