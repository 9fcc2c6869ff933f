/** Whole runs of the driver and the device over both rings. */
module NicRuns {
  import opened Prelude
  import opened Nic

  datatype State = State(rx: RxRing, tx: TxRing)

  datatype DeviceAction =
    | Dma(bytes: Bytes)
    | Complete(length: nat, eop: bool, errors: byte)
    | Fetch
    | Sent

  datatype Action =
    | Device(d: DeviceAction)
    | Receive                              // `receive_packet` reads the status
    | Send(packet: Bytes)                  // `send_packet` reads the status
    | Resume                               // the driver's next access

  /** Ring setup in `E1000::new`. */
  function Initial(): State {
    var zero: Bytes := seq(PACKET_SIZE, _ => 0);
    State(RxRing(seq(RING, _ => RxSlot(zero, 0, false, false, 0)), 0, RING - 1, 0, RxIdle, [], 0, []),
          TxRing(seq(RING, _ => TxSlot(zero, 0, true)), 0, 0, 0, TxIdle, None, [], []))
  }

  predicate Idle(s: State) {
    s.rx.pc.RxIdle? && s.tx.pc.TxIdle?
  }

  predicate Inv(s: State) {
    RxInv(s.rx) && TxInv(s.tx) && (s.rx.pc.RxIdle? || s.tx.pc.TxIdle?)
  }

  function DeviceStep(s: State, d: DeviceAction): State
    requires Inv(s)
  {
    match d
    case Dma(bytes) => s.(rx := RxDma(s.rx, bytes))
    case Complete(length, eop, errors) => s.(rx := RxWriteBack(s.rx, length, eop, errors))
    case Fetch => s.(tx := TxFetch(s.tx))
    case Sent => s.(tx := TxWriteBack(s.tx))
  }

  function Apply(s: State, a: Action): State
    requires Inv(s)
  {
    match a
    case Device(d) => DeviceStep(s, d)
    case Receive => if Idle(s) then s.(rx := BeginReceive(s.rx)) else s
    case Send(packet) => if Idle(s) then s.(tx := BeginSend(s.tx, packet)) else s
    case Resume => if s.rx.pc.RxIdle? then s.(tx := TxResume(s.tx)) else s.(rx := RxResume(s.rx))
  }

  lemma InitialInv()
    ensures Inv(Initial())
  {
    assert Initial().rx.written[..0] == [];
    assert Initial().tx.accepted[..0] == [];
  }

  lemma DeviceStepKeepsInv(s: State, d: DeviceAction)
    requires Inv(s)
    ensures Inv(DeviceStep(s, d))
    ensures DeviceStep(s, d).rx.pc == s.rx.pc && DeviceStep(s, d).tx.pc == s.tx.pc
  {
    match d
    case Dma(bytes) => RxDmaKeepsInv(s.rx, bytes);
    case Complete(length, eop, errors) => RxWriteBackKeepsInv(s.rx, length, eop, errors);
    case Fetch => TxFetchKeepsInv(s.tx);
    case Sent => TxWriteBackKeepsInv(s.tx);
  }

  lemma ApplyKeepsInv(s: State, a: Action)
    requires Inv(s)
    ensures Inv(Apply(s, a))
  {
    match a
    case Device(d) => DeviceStepKeepsInv(s, d);
    case Receive => BeginReceiveKeepsInv(s.rx);
    case Send(packet) => BeginSendKeepsInv(s.tx, packet);
    case Resume =>
      if s.rx.pc.RxIdle? {
        TxResumeKeepsInv(s.tx);
      } else {
        RxResumeKeepsInv(s.rx);
      }
  }

  function Run(s: State, actions: seq<Action>): (t: State)
    requires Inv(s)
    ensures Inv(t)
    decreases |actions|
  {
    if actions == [] then s
    else
      ApplyKeepsInv(s, actions[0]);
      Run(Apply(s, actions[0]), actions[1..])
  }

  function RunDevice(s: State, actions: seq<DeviceAction>): (t: State)
    requires Inv(s)
    ensures Inv(t) && t.rx.pc == s.rx.pc && t.tx.pc == s.tx.pc
    decreases |actions|
  {
    if actions == [] then s
    else
      DeviceStepKeepsInv(s, actions[0]);
      RunDevice(DeviceStep(s, actions[0]), actions[1..])
  }

  // ---------------------------------------------------------------------
  // Receive

  /** A whole packet without errors that fits a buffer. */
  predicate Good(f: Frame) {
    f.eop && f.errors == 0 && f.length <= 2048
  }

  function CountGood(frames: seq<Frame>): nat {
    if frames == [] then 0
    else CountGood(frames[..|frames| - 1]) + if Good(frames[|frames| - 1]) then 1 else 0
  }

  /** Each good frame gives one packet, its first `length` bytes, in order; the
      others give none. */
  predicate HandedFrom(handed: seq<Bytes>, frames: seq<Frame>) {
    && |handed| == CountGood(frames)
    && forall i :: 0 <= i < |frames| && Good(frames[i]) ==>
         && CountGood(frames[..i]) < |handed| && frames[i].length <= |frames[i].buffer|
         && handed[CountGood(frames[..i])] == frames[i].buffer[..frames[i].length]
  }

  lemma {:induction false} DeliveredIsHanded(frames: seq<Frame>)
    requires forall i :: 0 <= i < |frames| ==> IsBuffer(frames[i].buffer)
    ensures HandedFrom(Delivered(frames), frames)
    decreases |frames|
  {
    if frames != [] {
      var n := |frames| - 1;
      var before := frames[..n];
      DeliveredIsHanded(before);
      forall i | 0 <= i < |frames| && Good(frames[i])
        ensures CountGood(frames[..i]) < |Delivered(frames)|
        ensures Delivered(frames)[CountGood(frames[..i])] == frames[i].buffer[..frames[i].length]
      {
        assert i < n ==> before[i] == frames[i] && before[..i] == frames[..i];
      }
    }
  }

  /** In every run the packets handed up are exactly the first `length` bytes of
      the good frames among those consumed so far, one each, in order, and RDT
      trails `rx_next`. */
  lemma ReceivedExactlyTheAcceptablePackets(actions: seq<Action>)
    ensures Inv(Initial())
    ensures var r := Run(Initial(), actions).rx;
            && r.consumed <= |r.written|
            && HandedFrom(r.handed, r.written[..r.consumed])
            && r.tail == (r.next + RING - 1) % RING
  {
    InitialInv();
    InitialBuffers();
    RunKeepsBuffers(Initial(), actions);
    DeliveredIsHanded(Run(Initial(), actions).rx.written[..Run(Initial(), actions).rx.consumed]);
  }

  predicate BuffersWhole(s: State) {
    forall i :: 0 <= i < |s.rx.written| ==> IsBuffer(s.rx.written[i].buffer)
  }

  lemma InitialBuffers()
    ensures BuffersWhole(Initial())
  {
  }

  lemma WriteBackKeepsBuffers(s: State, length: nat, eop: bool, errors: byte)
    requires Inv(s) && BuffersWhole(s)
    ensures BuffersWhole(s.(rx := RxWriteBack(s.rx, length, eop, errors)))
  {
  }

  lemma ApplyKeepsBuffers(s: State, a: Action)
    requires Inv(s) && BuffersWhole(s)
    ensures BuffersWhole(Apply(s, a))
  {
    if a.Device? && a.d.Complete? {
      WriteBackKeepsBuffers(s, a.d.length, a.d.eop, a.d.errors);
    } else {
      assert Apply(s, a).rx.written == s.rx.written;
    }
  }

  lemma {:induction false} RunKeepsBuffers(s: State, actions: seq<Action>)
    requires Inv(s) && BuffersWhole(s)
    ensures BuffersWhole(Run(s, actions))
    decreases |actions|
  {
    if actions != [] {
      ApplyKeepsInv(s, actions[0]);
      ApplyKeepsBuffers(s, actions[0]);
      RunKeepsBuffers(Apply(s, actions[0]), actions[1..]);
    }
  }

  /** No device step touches a buffer that is completed and not yet consumed:
      it still holds, byte for byte, what the device completed. */
  lemma CompletedBuffersAreStable(s: State, d: DeviceAction, j: Index)
    requires Inv(s)
    requires Distance(j, s.rx.next) < |s.rx.written| - s.rx.consumed
    ensures DeviceStep(s, d).rx.slots[j] == s.rx.slots[j]
    ensures s.rx.slots[j].buffer == s.rx.written[s.rx.consumed + Distance(j, s.rx.next)].buffer
  {
    assert Holds(s.rx.slots[j], s.rx.written[s.rx.consumed + Distance(j, s.rx.next)]);
  }

  /** `receive_packet` with device activity between its accesses. */
  function Receiving(s: State, e1: seq<DeviceAction>, e2: seq<DeviceAction>, e3: seq<DeviceAction>): (t: State)
    requires Inv(s)
    ensures Inv(t)
  {
    ApplyKeepsInv(s, Receive);
    var s1 := RunDevice(Apply(s, Receive), e1);
    ApplyKeepsInv(s1, Resume);
    var s2 := RunDevice(Apply(s1, Resume), e2);
    ApplyKeepsInv(s2, Resume);
    var s3 := RunDevice(Apply(s2, Resume), e3);
    ApplyKeepsInv(s3, Resume);
    Apply(s3, Resume)
  }

  lemma {:induction false} DeviceHandsNothing(s: State, actions: seq<DeviceAction>)
    requires Inv(s)
    ensures RunDevice(s, actions).rx.handed == s.rx.handed
    decreases |actions|
  {
    if actions != [] {
      DeviceStepKeepsInv(s, actions[0]);
      DeviceHandsNothing(DeviceStep(s, actions[0]), actions[1..]);
    }
  }

  /** While the driver works on a completed slot the device leaves it alone. */
  lemma {:induction false} NextSlotIsStable(s: State, actions: seq<DeviceAction>)
    requires Inv(s) && |s.rx.written| > s.rx.consumed
    ensures var r := RunDevice(s, actions).rx; r.next == s.rx.next && r.slots[r.next] == s.rx.slots[s.rx.next]
    decreases |actions|
  {
    if actions != [] {
      assert Distance(s.rx.next, s.rx.next) == 0;
      CompletedBuffersAreStable(s, actions[0], s.rx.next);
      DeviceStepKeepsInv(s, actions[0]);
      NextSlotIsStable(DeviceStep(s, actions[0]), actions[1..]);
    }
  }

  // ---------------------------------------------------------------------
  // Transmit

  /** In every run the device has sent a prefix of the accepted packets, byte
      for byte; DD is clear exactly on the rest, at most eight of them. */
  lemma SentIsPrefixOfAccepted(actions: seq<Action>)
    ensures Inv(Initial())
    ensures var t := Run(Initial(), actions).tx;
            && t.sent <= t.accepted
            && 0 <= Outstanding(t) <= RING
            && (forall j: Index :: !t.slots[j].done <==> Distance(j, t.head) < Outstanding(t))
            && (forall j: Index :: !t.slots[j].done ==>
                  t.slots[j].buffer[..t.slots[j].length] == t.accepted[|t.sent| + Distance(j, t.head)])
  {
    InitialInv();
  }

  /** The driver never writes a transmit slot that the device owns. */
  lemma DriverSparesDeviceSlots(s: State, a: Action, j: Index)
    requires Inv(s) && !a.Device?
    requires Distance(j, s.tx.head) < Distance(s.tx.tail, s.tx.head)
    ensures Apply(s, a).tx.slots[j] == s.tx.slots[j]
  {
  }

  lemma {:induction false} ReadinessIsStable(s: State, actions: seq<Action>)
    requires Inv(s) && s.tx.pc.TxIdle? && TransmitReady(s.tx)
    requires forall i :: 0 <= i < |actions| ==> !actions[i].Send?
    ensures var t := Run(s, actions).tx;
            t.pc.TxIdle? && TransmitReady(t) && t.accepted == s.tx.accepted
    decreases |actions|
  {
    if actions != [] {
      ApplyKeepsInv(s, actions[0]);
      ReadinessIsStable(Apply(s, actions[0]), actions[1..]);
    }
  }

  lemma {:induction false} DeviceKeepsReadiness(s: State, actions: seq<DeviceAction>)
    requires Inv(s) && s.tx.pc.TxIdle? && TransmitReady(s.tx)
    ensures TransmitReady(RunDevice(s, actions).tx)
    ensures RunDevice(s, actions).tx.accepted == s.tx.accepted
    decreases |actions|
  {
    if actions != [] {
      DeviceStepKeepsInv(s, actions[0]);
      DeviceKeepsReadiness(DeviceStep(s, actions[0]), actions[1..]);
    }
  }

  lemma ReceivingKeepsReadiness(s: State, e1: seq<DeviceAction>, e2: seq<DeviceAction>, e3: seq<DeviceAction>)
    requires Inv(s) && Idle(s) && s.rx.slots[s.rx.next].done && TransmitReady(s.tx)
    ensures TransmitReady(Receiving(s, e1, e2, e3).tx)
    ensures Receiving(s, e1, e2, e3).tx.accepted == s.tx.accepted
  {
    var s0 := Apply(s, Receive);
    ApplyKeepsInv(s, Receive);
    DeviceKeepsReadiness(s0, e1);
    var s1 := RunDevice(s0, e1);
    ApplyKeepsInv(s1, Resume);
    DeviceKeepsReadiness(Apply(s1, Resume), e2);
    var s2 := RunDevice(Apply(s1, Resume), e2);
    ApplyKeepsInv(s2, Resume);
    DeviceKeepsReadiness(Apply(s2, Resume), e3);
  }

  /** `send_packet` with device activity between its accesses. */
  function Sending(s: State, packet: Bytes, e1: seq<DeviceAction>, e2: seq<DeviceAction>,
                   e3: seq<DeviceAction>): (t: State)
    requires Inv(s)
    ensures Inv(t)
  {
    ApplyKeepsInv(s, Send(packet));
    Queueing(Apply(s, Send(packet)), e1, e2, e3)
  }

  /** The three accesses after the checks. */
  function Queueing(s: State, e1: seq<DeviceAction>, e2: seq<DeviceAction>, e3: seq<DeviceAction>): (t: State)
    requires Inv(s)
    ensures Inv(t)
  {
    var s1 := RunDevice(s, e1);
    ApplyKeepsInv(s1, Resume);
    var s2 := RunDevice(Apply(s1, Resume), e2);
    ApplyKeepsInv(s2, Resume);
    var s3 := RunDevice(Apply(s2, Resume), e3);
    ApplyKeepsInv(s3, Resume);
    Apply(s3, Resume)
  }

  lemma {:induction false} DeviceAcceptsNothing(s: State, actions: seq<DeviceAction>)
    requires Inv(s)
    ensures RunDevice(s, actions).tx.accepted == s.tx.accepted
    decreases |actions|
  {
    if actions != [] {
      DeviceStepKeepsInv(s, actions[0]);
      DeviceAcceptsNothing(DeviceStep(s, actions[0]), actions[1..]);
    }
  }

  /** `send_packet` accepts a packet if and only if it fits and the next
      descriptor is free, whatever the device does meanwhile. */
  lemma SendAcceptsIffReady(s: State, packet: Bytes, e1: seq<DeviceAction>, e2: seq<DeviceAction>,
                            e3: seq<DeviceAction>)
    requires Inv(s) && Idle(s)
    ensures var t := Sending(s, packet, e1, e2, e3);
            && Idle(t)
            && t.tx.accepted == if |packet| <= PACKET_SIZE && TransmitReady(s.tx)
                                then s.tx.accepted + [packet] else s.tx.accepted
  {
    var s0 := Apply(s, Send(packet));
    ApplyKeepsInv(s, Send(packet));
    DeviceAcceptsNothing(s0, e1);
    var s1 := RunDevice(s0, e1);
    ApplyKeepsInv(s1, Resume);
    DeviceAcceptsNothing(Apply(s1, Resume), e2);
    var s2 := RunDevice(Apply(s1, Resume), e2);
    ApplyKeepsInv(s2, Resume);
    DeviceAcceptsNothing(Apply(s2, Resume), e3);
  }

  /** A token proves that the next descriptor is free.  Whatever device
      activity and reception happens before it is consumed, a packet of at
      most 2048 bytes is then accepted. */
  lemma TokenNeverDropsPacket(s: State, between: seq<Action>, packet: Bytes, e1: seq<DeviceAction>,
                              e2: seq<DeviceAction>, e3: seq<DeviceAction>)
    requires Inv(s) && Idle(s) && TransmitReady(s.tx)
    requires forall i :: 0 <= i < |between| ==> !between[i].Send?
    requires Idle(Run(s, between)) && |packet| <= PACKET_SIZE
    ensures Sending(Run(s, between), packet, e1, e2, e3).tx.accepted == s.tx.accepted + [packet]
  {
    ReadinessIsStable(s, between);
    SendAcceptsIffReady(Run(s, between), packet, e1, e2, e3);
  }

  // ---------------------------------------------------------------------
  // Transmit progress

  /** With all eight outstanding and none in flight, TDT equals TDH: the device
      sees an empty ring and the driver no free descriptor. */
  lemma {:induction false} FullRingNeverMoves(s: State, actions: seq<Action>)
    requires Inv(s) && s.tx.pc.TxIdle? && s.tx.flight.None? && Outstanding(s.tx) == RING
    ensures Run(s, actions).tx == s.tx && !TransmitReady(s.tx)
    decreases |actions|
  {
    assert Distance(s.tx.next, s.tx.head) == 0;
    if actions != [] {
      ApplyKeepsInv(s, actions[0]);
      FullRingNeverMoves(Apply(s, actions[0]), actions[1..]);
    }
  }

  lemma {:induction false} RunConcat(s: State, a: seq<Action>, b: seq<Action>)
    requires Inv(s)
    ensures Run(s, a + b) == Run(Run(s, a), b)
    decreases |a|
  {
    if a == [] {
      assert a + b == b;
    } else {
      assert (a + b)[1..] == a[1..] + b;
      ApplyKeepsInv(s, a[0]);
      RunConcat(Apply(s, a[0]), a[1..], b);
    }
  }

  lemma RunFour(s: State, a: Action, b: Action, c: Action, d: Action)
    requires Inv(s)
    ensures Inv(Apply(s, a)) && Inv(Apply(Apply(s, a), b)) && Inv(Apply(Apply(Apply(s, a), b), c))
    ensures Run(s, [a, b, c, d]) == Apply(Apply(Apply(Apply(s, a), b), c), d)
  {
    ApplyKeepsInv(s, a);
    var s1 := Apply(s, a);
    ApplyKeepsInv(s1, b);
    var s2 := Apply(s1, b);
    ApplyKeepsInv(s2, c);
    var s3 := Apply(s2, c);
    ApplyKeepsInv(s3, d);
    assert [a, b, c, d][1..] == [b, c, d] && [b, c, d][1..] == [c, d] && [c, d][1..] == [d];
    assert Run(s3, [d]) == Apply(s3, d);
    assert Run(s2, [c, d]) == Run(s3, [d]);
    assert Run(s1, [b, c, d]) == Run(s2, [c, d]);
  }

  lemma DriverSendsNothing(s: State, a: Action)
    requires Inv(s) && !a.Device?
    ensures Apply(s, a).tx.sent == s.tx.sent && Apply(s, a).tx.flight == s.tx.flight
  {
  }

  lemma SendingUndisturbed(s: State, packet: Bytes)
    requires Inv(s)
    ensures Run(s, [Send(packet), Resume, Resume, Resume]) == Sending(s, packet, [], [], [])
    ensures Sending(s, packet, [], [], []).tx.sent == s.tx.sent
    ensures Sending(s, packet, [], [], []).tx.flight == s.tx.flight
  {
    RunFour(s, Send(packet), Resume, Resume, Resume);
    var s1 := Apply(s, Send(packet));
    var s2 := Apply(s1, Resume);
    var s3 := Apply(s2, Resume);
    DriverSendsNothing(s, Send(packet));
    DriverSendsNothing(s1, Resume);
    DriverSendsNothing(s2, Resume);
    DriverSendsNothing(s3, Resume);
    assert RunDevice(s1, []) == s1 && RunDevice(s2, []) == s2 && RunDevice(s3, []) == s3;
  }

  lemma RunTwo(s: State, a: Action, b: Action)
    requires Inv(s)
    ensures Inv(Apply(s, a)) && Run(s, [a, b]) == Apply(Apply(s, a), b)
  {
    ApplyKeepsInv(s, a);
    ApplyKeepsInv(Apply(s, a), b);
    assert [a, b][1..] == [b] && [b][1..] == [];
    assert Run(Apply(s, a), [b]) == Apply(Apply(s, a), b);
  }

  /** The packet in flight, or the oldest one, goes out. */
  lemma DeviceSends(s: State) returns (actions: seq<Action>)
    requires Inv(s) && Idle(s) && (s.tx.flight.Some? || 0 < Outstanding(s.tx) < RING)
    ensures |Run(s, actions).tx.sent| == |s.tx.sent| + 1
  {
    actions := [Device(Fetch), Device(Sent)];
    RunTwo(s, Device(Fetch), Device(Sent));
  }

  /** With nothing outstanding the driver can send a packet and the device
      transmit it. */
  lemma EmptyRingSends(s: State) returns (actions: seq<Action>)
    requires Inv(s) && Idle(s) && Outstanding(s.tx) == 0
    ensures |Run(s, actions).tx.sent| == |s.tx.sent| + 1
  {
    assert TransmitReady(s.tx);
    SendAcceptsIffReady(s, [], [], [], []);
    SendingUndisturbed(s, []);
    var send := [Send([]), Resume, Resume, Resume];
    var t := Run(s, send);
    var more := DeviceSends(t);
    actions := send + more;
    RunConcat(s, send, more);
  }

  /** Transmission is stuck for good, whatever driver and device do, if and
      only if all eight descriptors are outstanding and none is in flight. */
  lemma StuckExactly(s: State)
    requires Inv(s) && Idle(s)
    ensures (forall actions :: Run(s, actions).tx.sent == s.tx.sent) <==>
            Outstanding(s.tx) == RING && s.tx.flight.None?
  {
    if Outstanding(s.tx) == RING && s.tx.flight.None? {
      forall actions
        ensures Run(s, actions).tx.sent == s.tx.sent
      {
        FullRingNeverMoves(s, actions);
      }
    } else if Outstanding(s.tx) == 0 {
      var actions := EmptyRingSends(s);
      assert Run(s, actions).tx.sent != s.tx.sent;
    } else {
      var actions := DeviceSends(s);
      assert Run(s, actions).tx.sent != s.tx.sent;
    }
  }

  /** A slow device lets the driver fill the ring, so that state is reachable. */
  lemma {:induction false} RingFills(n: nat) returns (actions: seq<Action>)
    requires n <= RING
    ensures Inv(Initial())
    ensures var s := Run(Initial(), actions);
            Idle(s) && s.tx.flight.None? && Outstanding(s.tx) == n && s.tx.sent == []
  {
    InitialInv();
    if n == 0 {
      actions := [];
    } else {
      var before := RingFills(n - 1);
      var s := Run(Initial(), before);
      assert TransmitReady(s.tx) by {
        assert Distance(s.tx.next, s.tx.head) == n - 1;
      }
      SendAcceptsIffReady(s, [], [], [], []);
      SendingUndisturbed(s, []);
      var more := [Send([]), Resume, Resume, Resume];
      actions := before + more;
      RunConcat(Initial(), before, more);
    }
  }
}
