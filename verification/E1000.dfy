/** The e1000 driver over shared DMA memory.  What the device does between two
    accesses of a driver function is a parameter of that function. */
module E1000 {
  import opened Prelude
  import opened Nic
  import opened NicRuns

  /** The first `length` bytes of a slot, if it holds a whole packet without
      errors of at most 2048 bytes. */
  function Accepted(slot: RxSlot, eop: bool): Option<Bytes> {
    if eop && slot.errors == 0 && slot.length <= 2048 && slot.length <= |slot.buffer| then
      Some(slot.buffer[..slot.length])
    else
      None
  }

  /** A set DD bit at the driver's slot means a frame is waiting there. */
  lemma NextIsPending(s: State)
    requires Inv(s) && s.rx.slots[s.rx.next].done
    ensures |s.rx.written| > s.rx.consumed
  {
  }

  class Controller {
    // DMA memory and device registers.
    const rxRing: array<RxSlot>
    const txRing: array<TxSlot>
    var rdh: Index
    var rdt: Index
    var tdh: Index
    var tdt: Index
    // The driver's own fields.
    var rxNext: Index
    var txNext: Index
    // The packet the device is sending.
    var flight: Option<Bytes>
    // Where the driver is, and history.
    ghost var rxPc: RxPc
    ghost var txPc: TxPc
    ghost var written: seq<Frame>
    ghost var consumed: nat
    ghost var handed: seq<Bytes>
    ghost var accepted: seq<Bytes>
    ghost var sent: seq<Bytes>

    ghost function View(): State
      reads this, rxRing, txRing
    {
      State(RxRing(rxRing[..], rdh, rdt, rxNext, rxPc, written, consumed, handed),
            TxRing(txRing[..], tdh, tdt, txNext, txPc, flight, accepted, sent))
    }

    ghost predicate Valid()
      reads this, rxRing, txRing
    {
      Inv(View()) && rxRing.Length == RING && txRing.Length == RING
    }

    /** Ring setup in `E1000::new`. */
    constructor ()
      ensures Valid() && View() == Initial() && fresh(rxRing) && fresh(txRing)
    {
      var zero: Bytes := seq(PACKET_SIZE, _ => 0);
      rxRing := new RxSlot[RING](_ => RxSlot(zero, 0, false, false, 0));
      txRing := new TxSlot[RING](_ => TxSlot(zero, 0, true));
      rdh, rdt, tdh, tdt := 0, RING - 1, 0, 0;
      rxNext, txNext := 0, 0;
      rxPc, txPc, flight := RxIdle, TxIdle, None;
      written, consumed, handed, accepted, sent := [], 0, [], [], [];
      new;
      assert rxRing[..] == Initial().rx.slots;
      assert txRing[..] == Initial().tx.slots;
      InitialInv();
    }

    // The device.

    method DmaWrite(bytes: Bytes)
      requires Valid()
      modifies rxRing
      ensures Valid() && View() == DeviceStep(old(View()), Dma(bytes))
    {
      DeviceStepKeepsInv(View(), Dma(bytes));
      if rdh != rdt && |bytes| == PACKET_SIZE {
        rxRing[rdh] := rxRing[rdh].(buffer := bytes);
      }
      assert rxRing[..] == DeviceStep(old(View()), Dma(bytes)).rx.slots;
    }

    method CompleteDescriptor(length: nat, eop: bool, errors: byte)
      requires Valid()
      modifies this`rdh, this`written, rxRing
      ensures Valid() && View() == DeviceStep(old(View()), Complete(length, eop, errors))
    {
      DeviceStepKeepsInv(View(), Complete(length, eop, errors));
      if rdh != rdt {
        written := written + [Frame(rxRing[rdh].buffer, length, eop, errors)];
        rxRing[rdh] := RxSlot(rxRing[rdh].buffer, length, true, eop, errors);
        rdh := Succ(rdh);
      }
      assert rxRing[..] == DeviceStep(old(View()), Complete(length, eop, errors)).rx.slots;
    }

    method FetchPacket()
      requires Valid()
      modifies this`flight
      ensures Valid() && View() == DeviceStep(old(View()), Fetch)
    {
      DeviceStepKeepsInv(View(), Fetch);
      if tdh != tdt && flight.None? {
        flight := Some(txRing[tdh].buffer[..txRing[tdh].length]);
      }
    }

    method PacketSent()
      requires Valid()
      modifies this`tdh, this`flight, this`sent, txRing
      ensures Valid() && View() == DeviceStep(old(View()), Sent)
    {
      DeviceStepKeepsInv(View(), Sent);
      if flight.Some? {
        sent := sent + [flight.value];
        txRing[tdh] := txRing[tdh].(done := true);
        tdh := Succ(tdh);
        flight := None;
      }
      assert txRing[..] == DeviceStep(old(View()), Sent).tx.slots;
    }

    /** The environment between two driver accesses. */
    method DeviceRuns(actions: seq<DeviceAction>)
      requires Valid()
      modifies this`rdh, this`written, this`tdh, this`flight, this`sent, rxRing, txRing
      ensures Valid() && View() == RunDevice(old(View()), actions)
      decreases |actions|
    {
      if actions != [] {
        match actions[0] {
          case Dma(bytes) => DmaWrite(bytes);
          case Complete(length, eop, errors) => CompleteDescriptor(length, eop, errors);
          case Fetch => FetchPacket();
          case Sent => PacketSent();
        }
        DeviceRuns(actions[1..]);
      }
    }

    // The driver.  Each access of `receive_packet` and `send_packet` is one
    // step of the protocol.

    method CopyOut(eop: bool) returns (packet: Option<Bytes>)
      requires Valid() && rxPc == RxChecked(eop)
      modifies this`rxPc
      ensures Valid() && View() == Apply(old(View()), Resume) && rxPc == RxCopied(packet)
      ensures packet == Accepted(rxRing[rxNext], eop)
    {
      ApplyKeepsInv(View(), Resume);
      var slot := rxRing[rxNext];
      if eop && slot.errors == 0 && slot.length <= PACKET_SIZE {
        packet := Some(slot.buffer[..slot.length]);
      } else {
        packet := None;
      }
      rxPc := RxCopied(packet);
    }

    method ClearStatus()
      requires Valid() && rxPc.RxCopied?
      modifies this`rxPc, rxRing
      ensures Valid() && View() == Apply(old(View()), Resume) && rxPc == RxCleared(old(rxPc.packet))
    {
      ApplyKeepsInv(View(), Resume);
      ghost var after := RxResume(View().rx);
      rxRing[rxNext] := rxRing[rxNext].(done := false, eop := false);
      rxPc := RxCleared(rxPc.packet);
      assert rxRing[..] == after.slots;
    }

    method ReturnDescriptor()
      requires Valid() && rxPc.RxCleared?
      modifies this`rdt, this`rxNext, this`rxPc, this`consumed, this`handed
      ensures Valid() && View() == Apply(old(View()), Resume)
      ensures rxPc.RxIdle? && handed == Append(old(handed), old(rxPc.packet))
    {
      ApplyKeepsInv(View(), Resume);
      rdt := rxNext;
      rxNext := Succ(rxNext);
      consumed, handed := consumed + 1, Append(handed, rxPc.packet);
      rxPc := RxIdle;
    }

    /** Read the status of a completed slot, then copy its packet out. */
    method TakePacket(e1: seq<DeviceAction>) returns (packet: Option<Bytes>)
      requires Valid() && Idle(View()) && rxRing[rxNext].done
      modifies this`rxPc, this`rdh, this`written, this`tdh, this`flight, this`sent, rxRing, txRing
      ensures Valid() && rxPc == RxCopied(packet) && Inv(Apply(old(View()), Action.Receive))
      ensures View() == Apply(RunDevice(Apply(old(View()), Action.Receive), e1), Resume)
      ensures packet == Accepted(old(rxRing[rxNext]), old(rxRing[rxNext].eop))
    {
      NextIsPending(View());
      ApplyKeepsInv(View(), Action.Receive);
      ghost var slot := View().rx.slots[rxNext];
      var eop := rxRing[rxNext].eop;
      rxPc := RxChecked(eop);
      NextSlotIsStable(View(), e1);
      DeviceRuns(e1);
      assert View().rx.slots[rxNext] == slot;
      packet := CopyOut(eop);
    }

    /** Clear the status and give the slot back. */
    method GiveBackSlot(e2: seq<DeviceAction>, e3: seq<DeviceAction>)
      requires Valid() && rxPc.RxCopied?
      modifies this, rxRing, txRing
      ensures Valid() && Inv(Apply(RunDevice(old(View()), e2), Resume))
      ensures View() == Apply(RunDevice(Apply(RunDevice(old(View()), e2), Resume), e3), Resume)
      ensures rxPc.RxIdle? && txPc == old(txPc)
      ensures handed == Append(old(handed), old(rxPc.packet)) && consumed == old(consumed) + 1
    {
      DeviceRuns(e2);
      ClearStatus();
      DeviceRuns(e3);
      ReturnDescriptor();
    }

    /** `receive_packet`. */
    method ReceivePacket(e1: seq<DeviceAction>, e2: seq<DeviceAction>, e3: seq<DeviceAction>)
        returns (packet: Option<Bytes>)
      requires Valid() && Idle(View())
      modifies this, rxRing, txRing
      ensures Valid() && Idle(View())
      ensures View() == if old(rxRing[rxNext].done) then Receiving(old(View()), e1, e2, e3) else old(View())
      ensures handed == Append(old(handed), packet)
      ensures packet == if old(rxRing[rxNext].done && rxRing[rxNext].eop && rxRing[rxNext].errors == 0 &&
                               rxRing[rxNext].length <= 2048)
                        then Some(old(rxRing[rxNext].buffer[..rxRing[rxNext].length])) else None
      ensures consumed == old(consumed) + (if old(rxRing[rxNext].done) then 1 else 0)
    {
      if !rxRing[rxNext].done {
        return None;
      }
      packet := TakePacket(e1);
      GiveBackSlot(e2, e3);
    }

    /** `transmit_ready`. */
    method IsTransmitReady() returns (free: bool)
      requires Valid()
      ensures free == TransmitReady(View().tx)
    {
      free := txRing[txNext].done;
    }

    method FillBuffer(packet: Bytes)
      requires Valid() && txPc == TxChecked(packet)
      modifies this`txPc, txRing
      ensures Valid() && View() == Apply(old(View()), Resume) && txPc == TxFilled(packet)
    {
      ApplyKeepsInv(View(), Resume);
      ghost var after := TxResume(View().tx);
      txRing[txNext] := txRing[txNext].(buffer := packet + txRing[txNext].buffer[|packet|..]);
      txPc := TxFilled(packet);
      assert txRing[..] == after.slots;
    }

    method ArmDescriptor(packet: Bytes)
      requires Valid() && txPc == TxFilled(packet)
      modifies this`txPc, this`accepted, txRing
      ensures Valid() && View() == Apply(old(View()), Resume) && txPc.TxArmed?
      ensures accepted == old(accepted) + [packet]
    {
      ApplyKeepsInv(View(), Resume);
      ghost var after := TxResume(View().tx);
      txRing[txNext] := txRing[txNext].(length := |packet|, done := false);
      txPc, accepted := TxArmed, accepted + [packet];
      assert txRing[..] == after.slots;
    }

    method AdvanceTail()
      requires Valid() && txPc.TxArmed?
      modifies this`txNext, this`tdt, this`txPc
      ensures Valid() && View() == Apply(old(View()), Resume) && txPc.TxIdle?
    {
      ApplyKeepsInv(View(), Resume);
      txNext := Succ(txNext);
      tdt := txNext;
      txPc := TxIdle;
    }

    /** `send_packet`. */
    method SendPacket(packet: Bytes, e1: seq<DeviceAction>, e2: seq<DeviceAction>, e3: seq<DeviceAction>)
      requires Valid() && Idle(View())
      modifies this, rxRing, txRing
      ensures Valid() && Idle(View())
      ensures View() == if |packet| <= PACKET_SIZE && old(txRing[txNext].done)
                        then Sending(old(View()), packet, e1, e2, e3) else old(View())
      ensures accepted == if |packet| <= 2048 && old(txRing[txNext].done) then old(accepted) + [packet] else old(accepted)
    {
      if |packet| > PACKET_SIZE {
        return;
      }
      if !txRing[txNext].done {
        return;
      }
      ApplyKeepsInv(View(), Send(packet));
      txPc := TxChecked(packet);
      QueuePacket(packet, e1, e2, e3);
    }

    /** Fill the slot, arm it, and tell the device. */
    method QueuePacket(packet: Bytes, e1: seq<DeviceAction>, e2: seq<DeviceAction>, e3: seq<DeviceAction>)
      requires Valid() && txPc == TxChecked(packet)
      modifies this, rxRing, txRing
      ensures Valid() && txPc.TxIdle? && rxPc == old(rxPc) && accepted == old(accepted) + [packet]
      ensures View() == Queueing(old(View()), e1, e2, e3)
    {
      DeviceRuns(e1);
      FillBuffer(packet);
      DeviceRuns(e2);
      ArmDescriptor(packet);
      DeviceRuns(e3);
      AdvanceTail();
    }

    /** `Device::receive`: a pair of tokens is handed out only when a
        descriptor is free, and it stays free. */
    method ReceiveTokens(e1: seq<DeviceAction>, e2: seq<DeviceAction>, e3: seq<DeviceAction>)
        returns (token: Option<Bytes>)
      requires Valid() && Idle(View())
      modifies this, rxRing, txRing
      ensures Valid() && Idle(View())
      ensures token.Some? ==> TransmitReady(View().tx)
      ensures token == if old(txRing[txNext].done && rxRing[rxNext].done)
                       then Accepted(old(rxRing[rxNext]), old(rxRing[rxNext].eop)) else None
      ensures handed == Append(old(handed), token) && accepted == old(accepted)
    {
      var free := IsTransmitReady();
      if !free {
        return None;
      }
      ghost var before := View();
      token := ReceivePacket(e1, e2, e3);
      if View() != before {
        ReceivingKeepsReadiness(before, e1, e2, e3);
      }
    }
  }
}
