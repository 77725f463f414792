/** The CSMA device, its channel and the simulator's event bag as objects. Each method is proved to do what
    the function of the same name in Transmitter or Frames says. */
module CsmaDevices {
  import opened Wrappers
  import opened Backoffs
  import opened Frames
  import opened Transmitter
  import opened CsmaNetwork

  /** The events posted and not yet run, in no order, and the delays they were posted with. */
  class Simulator {
    var pending: multiset<Event>
    ghost var delays: seq<(nat, Event)>

    constructor ()
      ensures pending == multiset{} && delays == []
    {
      pending, delays := multiset{}, [];
    }

    method Schedule(delay: nat, e: Event)
      modifies this
      ensures pending == old(pending) + multiset{e} && delays == old(delays) + [(delay, e)]
    {
      pending := pending + multiset{e};
      delays := delays + [(delay, e)];
    }

    method Take(e: Event)
      requires e in pending
      modifies this
      ensures pending == old(pending) - multiset{e} && delays == old(delays)
    {
      pending := pending - multiset{e};
    }
  }

  /** The contract the device relies on: only an idle channel can take a packet, and it may refuse. */
  class CsmaChannel {
    const delay: nat
    var state: WireState
    /** The transmissions taken so far: by whom, and what. */
    ghost var carried: seq<(nat, Bytes)>

    constructor (delay: nat)
      ensures state == IDLE && carried == [] && this.delay == delay
    {
      this.delay := delay;
      state, carried := IDLE, [];
    }

    method TransmitStart(frame: Bytes, deviceId: nat) returns (ok: bool)
      modifies this
      ensures ok ==> old(state) == IDLE && state == TRANSMITTING && carried == old(carried) + [(deviceId, frame)]
      ensures !ok ==> state == old(state) && carried == old(carried)
    {
      ok := false;
      if state.IDLE? {
        ok := *;
        if ok {
          state := TRANSMITTING;
          carried := carried + [(deviceId, frame)];
        }
      }
    }

    method TransmitEnd(sim: Simulator)
      requires state.TRANSMITTING?
      modifies this, sim
      ensures state == PROPAGATING && sim.pending == old(sim.pending) + multiset{PropagationComplete}
      ensures carried == old(carried) && sim.delays == old(sim.delays) + [(delay, PropagationComplete)]
    {
      state := PROPAGATING;
      sim.Schedule(delay, PropagationComplete);
    }

    method PropagationCompleteEvent()
      requires state.PROPAGATING?
      modifies this
      ensures state == IDLE && carried == old(carried)
    {
      state := IDLE;
    }
  }

  /** A packet under construction: a byte buffer that headers and trailers are added to in place. */
  class Packet {
    var bytes: Bytes

    constructor (bytes: Bytes)
      ensures this.bytes == bytes
    {
      this.bytes := bytes;
    }

    method AddHeader(h: Bytes)
      modifies this
      ensures bytes == h + old(bytes)
    {
      bytes := h + bytes;
    }

    method AddAtEnd(t: Bytes)
      modifies this
      ensures bytes == old(bytes) + t
    {
      bytes := bytes + t;
    }

    method RemoveHeader(n: nat) returns (h: Bytes)
      requires n <= |bytes|
      modifies this
      ensures h == old(bytes)[..n] && bytes == old(bytes)[n..]
    {
      h := bytes[..n];
      bytes := bytes[n..];
    }

    method RemoveAtEnd(n: nat) returns (t: Bytes)
      requires n <= |bytes|
      modifies this
      ensures t == old(bytes)[|old(bytes)| - n..] && bytes == old(bytes)[..|old(bytes)| - n]
    {
      t := bytes[|bytes| - n..];
      bytes := bytes[..|bytes| - n];
    }
  }

  class CsmaNetDevice {
    const id: nat
    const channel: CsmaChannel
    const sim: Simulator
    const backoff: Backoff
    const capacity: nat
    const address: Mac48
    const mtu: uint16
    const checksum: Checksum
    const interframeGap: nat
    const txTime: nat -> nat
    var encapMode: EncapsulationMode
    var receiveEnable: bool
    var sendEnable: bool
    var txMachineState: TxState
    var currentPkt: Option<Bytes>
    var queue: seq<Bytes>
    ghost var inherited: nat
    ghost var waits: seq<nat>
    ghost var senses: seq<WireState>
    ghost var accepted: seq<Bytes>
    ghost var finished: seq<Record>

    constructor (id: nat, channel: CsmaChannel, sim: Simulator, backoff: Backoff, capacity: nat,
                 address: Mac48, mtu: uint16, checksum: Checksum, interframeGap: nat, txTime: nat -> nat,
                 sendEnable: bool)
      requires backoff.numBackoffRetries == 0
      ensures this.id == id && this.channel == channel && this.sim == sim && this.backoff == backoff
      ensures this.address == address && this.mtu == mtu && this.checksum == checksum
      ensures this.interframeGap == interframeGap && this.txTime == txTime
      ensures encapMode == DIX && receiveEnable
      ensures View() == NewDevice(backoff.params, capacity, sendEnable)
    {
      this.id, this.channel, this.sim, this.backoff := id, channel, sim, backoff;
      this.capacity, this.address, this.mtu, this.checksum := capacity, address, mtu, checksum;
      this.interframeGap, this.txTime := interframeGap, txTime;
      this.sendEnable := sendEnable;
      encapMode, receiveEnable := DIX, true;
      txMachineState, currentPkt, queue := READY, None, [];
      inherited, waits, senses, accepted, finished := 0, [], [], [], [];
    }

    ghost function View(): Device
      reads this, backoff
    {
      Device(backoff.params, capacity, txMachineState, currentPkt, queue, backoff.numBackoffRetries,
             sendEnable, inherited, waits, senses, accepted, finished)
    }

    /** The objects now stand as the effect says, with its timer posted on top of `before` and its packet, if it handed
        one over, carried behind `carried`. */
    ghost predicate Did(r: Result<Effect, Site>, before: multiset<Event>, carried: seq<(nat, Bytes)>)
      reads this, backoff, channel, sim
    {
      && r.Success?
      && View() == r.value.device
      && channel.state == r.value.wire
      && sim.pending == before + Post(id, r.value.posted)
      && channel.carried == carried + Handed(id, r.value)
    }

    method SetSendEnable(sendEnable: bool)
      modifies this
      ensures View() == old(View()).(sendEnable := sendEnable)
    {
      this.sendEnable := sendEnable;
    }

    // ---------- transmit path ----------

    ghost method RecordOutcome(fate: Fate)
      requires currentPkt.Some?
      modifies this`finished
      ensures View() == Finish(old(View()), fate).(current := currentPkt)
    {
      finished := finished + [Record(currentPkt.value, fate, inherited, waits, senses)];
    }

    method Dequeue()
      requires queue != []
      modifies this
      ensures View() == TakeNext(old(View()))
    {
      currentPkt := Some(queue[0]);
      queue := queue[1..];
      inherited, waits, senses := backoff.numBackoffRetries, [], [];
    }

    method TransmitStart() returns (ghost c: Choice)
      requires currentPkt.Some?
      requires sendEnable ==> txMachineState.READY? || txMachineState.BACKOFF?
      modifies this, backoff, channel, sim
      ensures PossibleChoice(old(View()), c)
      ensures Did(Transmitter.TransmitStart(old(View()), old(channel.state), c), old(sim.pending), old(channel.carried))
      decreases |queue|, 2
    {
      c := AnyChoice(View());
      if !sendEnable {
        RecordOutcome(DroppedDisabled);
        currentPkt := None;
        return;
      }
      senses := senses + [channel.state];
      if channel.state != IDLE {
        txMachineState := BACKOFF;
        var reached := backoff.MaxRetriesReached();
        if reached {
          c := TransmitAbort();
        } else {
          c := BackOff();
        }
      } else {
        var ok := Seize();
        c := c.(accept := ok);
      }
    }

    /** The idle branch of TransmitStart: the channel takes the packet or refuses it. */
    method Seize() returns (ok: bool)
      requires currentPkt.Some? && channel.state.IDLE?
      modifies this, backoff, channel, sim
      ensures ok ==> Did(Success(Effect(old(View()).(retries := 0, tx := BUSY), TRANSMITTING, Some(CompleteTimer))),
                         old(sim.pending), old(channel.carried))
      ensures ok ==> sim.delays == old(sim.delays)
                                 + [(txTime(|old(currentPkt.value)|), TimerEvent(id, CompleteTimer))]
      ensures !ok ==> sim.delays == old(sim.delays)
      ensures !ok ==> Did(Success(Effect(Finish(old(View()), DroppedRefused).(tx := READY), IDLE, None)),
                          old(sim.pending), old(channel.carried))
    {
      ok := channel.TransmitStart(currentPkt.value, id);
      if !ok {
        RecordOutcome(DroppedRefused);
        currentPkt := None;
        txMachineState := READY;
      } else {
        backoff.ResetBackoffTime();
        txMachineState := BUSY;
        sim.Schedule(txTime(|currentPkt.value|), TimerEvent(id, CompleteTimer));
      }
    }

    /** The busy branch of TransmitStart with retries left. */
    method BackOff() returns (ghost c: Choice)
      requires backoff.numBackoffRetries < backoff.params.maxRetries
      modifies this, backoff, sim
      ensures PossibleChoice(old(View()), c)
      ensures View() == BackedOff(old(View()), c.slots).(tx := old(txMachineState))
      ensures sim.pending == old(sim.pending) + multiset{TimerEvent(id, StartTimer)}
      ensures sim.delays == old(sim.delays) + [(c.slots * backoff.slotTime, TimerEvent(id, StartTimer))]
    {
      backoff.IncrNumRetries();
      var backoffTime := backoff.GetBackoffTime();
      ghost var slots: nat :| PossibleSlots(backoff.params, backoff.numBackoffRetries, slots)
                              && backoffTime == slots * backoff.slotTime;
      c := Choice(true, slots);
      waits := waits + [slots];
      sim.Schedule(backoffTime, TimerEvent(id, StartTimer));
    }

    method TransmitAbort() returns (ghost c: Choice)
      requires currentPkt.Some? && txMachineState.BACKOFF?
      modifies this, backoff, channel, sim
      ensures PossibleSlots(backoff.params, 1, c.slots)
      ensures Did(Transmitter.TransmitAbort(old(View()), old(channel.state), c), old(sim.pending), old(channel.carried))
      decreases |queue|, 1
    {
      RecordOutcome(Aborted);
      currentPkt := None;
      backoff.ResetBackoffTime();
      txMachineState := READY;
      c := StartNext();
    }

    /** Takes the head of the queue, if there is one, and tries to send it. */
    method StartNext() returns (ghost c: Choice)
      requires txMachineState.READY?
      modifies this, backoff, channel, sim
      ensures PossibleChoice(old(View()), c)
      ensures Did(Transmitter.StartNext(old(View()), old(channel.state), c), old(sim.pending), old(channel.carried))
      decreases |queue|, 0
    {
      c := AnyChoice(View());
      if queue == [] {
        return;
      }
      Dequeue();
      c := TransmitStart();
    }

    method TransmitCompleteEvent()
      requires txMachineState.BUSY? && channel.state.TRANSMITTING? && currentPkt.Some?
      modifies this, channel, sim
      ensures Did(TransmitComplete(old(View()), old(channel.state)),
                  old(sim.pending) + multiset{PropagationComplete}, old(channel.carried))
      ensures sim.delays == old(sim.delays) + [(channel.delay, PropagationComplete)]
                          + [(interframeGap, TimerEvent(id, ReadyTimer))]
    {
      txMachineState := GAP;
      channel.TransmitEnd(sim);
      RecordOutcome(Sent);
      currentPkt := None;
      sim.Schedule(interframeGap, TimerEvent(id, ReadyTimer));
    }

    method TransmitReadyEvent() returns (ghost c: Choice)
      requires txMachineState.GAP? && currentPkt.None?
      modifies this, backoff, channel, sim
      ensures PossibleChoice(old(View()), c)
      ensures Did(TransmitReady(old(View()), old(channel.state), c), old(sim.pending), old(channel.carried))
    {
      txMachineState := READY;
      c := StartNext();
    }

    /** The simulator's call of a posted handler. */
    method HandleTimer(timer: Timer) returns (ghost c: Choice)
      requires AtRest(View()) && Expected(View()) == Some(timer)
      requires timer.CompleteTimer? ==> channel.state.TRANSMITTING?
      modifies this, backoff, channel, sim
      ensures PossibleChoice(old(View()), c)
      ensures Did(OnTimer(old(View()), old(channel.state), timer, c),
                  old(sim.pending) + (if timer.CompleteTimer? then multiset{PropagationComplete} else multiset{}),
                  old(channel.carried))
    {
      match timer {
        case StartTimer =>
          c := TransmitStart();
        case CompleteTimer =>
          c := AnyChoice(View());
          TransmitCompleteEvent();
        case ReadyTimer =>
          c := TransmitReadyEvent();
      }
    }

    /** Frames the packet and queues it, and starts transmission if the device is READY. The fault is the
        assertion or fatal error AddHeader ends in, if it does. */
    method SendFrom(packet: Packet, source: Mac48, destination: Mac48, protocol: uint16)
      returns (ok: bool, fault: Option<Fault>, ghost c: Choice)
      modifies this, backoff, channel, sim, packet
      ensures PossibleChoice(old(View()), c)
      ensures !old(sendEnable) ==>
                !ok && fault == None && packet.bytes == old(packet.bytes)
                && Did(Success(Effect(old(View()), old(channel.state), None)), old(sim.pending), old(channel.carried))
      ensures old(sendEnable) ==>
                match Frames.AddHeader(old(encapMode), mtu, checksum, source, destination, protocol, old(packet.bytes))
                case Failure(f) =>
                  && !ok && fault == Some(f)
                  && Did(Success(Effect(old(View()), old(channel.state), None)), old(sim.pending), old(channel.carried))
                case Success(frame) =>
                  && fault == None && packet.bytes == frame
                  && ok == (|old(queue)| < capacity)
                  && Did(SendFrame(old(View()), old(channel.state), frame, c), old(sim.pending), old(channel.carried))
    {
      c := AnyChoice(View());
      ok, fault := false, None;
      if !sendEnable {
        return;
      }
      fault := AddHeader(packet, source, destination, protocol);
      if fault.Some? {
        return;
      }
      if |queue| >= capacity {
        return;
      }
      queue := queue + [packet.bytes];
      accepted := accepted + [packet.bytes];
      if txMachineState.READY? {
        c := StartNext();
      }
      ok := true;
    }

    // ---------- framing ----------

    method AddHeader(p: Packet, source: Mac48, destination: Mac48, protocol: uint16) returns (fault: Option<Fault>)
      modifies p
      ensures match Frames.AddHeader(encapMode, mtu, checksum, source, destination, protocol, old(p.bytes))
              case Failure(f) => fault == Some(f)
              case Success(frame) => fault == None && p.bytes == frame
    {
      var lengthType: uint16 := 0;
      match encapMode {
        case DIX =>
          lengthType := protocol;
          if |p.bytes| < MIN_PAYLOAD {
            p.AddAtEnd(Zeros(MIN_PAYLOAD - |p.bytes|));
          }
          assert p.bytes == Padded(old(p.bytes));
        case LLC =>
          p.AddHeader(LlcSnap(protocol));
          lengthType := |p.bytes| % 0x1_0000;
          if |p.bytes| < MIN_PAYLOAD {
            p.AddAtEnd(Zeros(MIN_PAYLOAD - |p.bytes|));
          }
          assert p.bytes == Padded(LlcSnap(protocol) + old(p.bytes));
          if |p.bytes| > mtu {
            return Some(MtuExceeded);
          }
        case ILLEGAL =>
          return Some(IllegalMode);
      }
      p.AddHeader(EthernetHeader(source, destination, lengthType));
      p.AddAtEnd(CalcFcs(checksum, p.bytes));
      fault := None;
    }

    /** What Receive delivers upwards; `corrupt` is the verdict of the receive error model. The packet handed
        up is the buffer stripped in place. */
    method Receive(p: Packet, sender: CsmaNetDevice, corrupt: bool) returns (r: Result<Reception, Fault>)
      modifies p
      ensures r == Frames.Receive(address, receiveEnable, checksum, sender == this, corrupt, old(p.bytes))
      ensures r.Success? && r.value.Delivered? ==> p.bytes == r.value.payload
    {
      if sender == this {
        return Success(Ignored);
      }
      if !receiveEnable || corrupt {
        return Success(PhyRxDrop);
      }
      if |p.bytes| < 4 {
        return Failure(ShortPacket);
      }
      var fcs := p.RemoveAtEnd(4);
      if !CheckFcs(checksum, p.bytes, fcs) {
        return Success(PhyRxDrop);
      }
      if |p.bytes| < 14 {
        return Failure(ShortPacket);
      }
      ghost var covered := p.bytes;
      var header := p.RemoveHeader(14);
      var destination: Mac48, source: Mac48 := header[0..6], header[6..12];
      var lengthType := ReadU16(header[12..14]);
      SliceOfPrefix(covered, 14, 0, 6);
      SliceOfPrefix(covered, 14, 6, 12);
      SliceOfPrefix(covered, 14, 12, 14);
      var protocol: uint16;
      if lengthType <= MAX_LENGTH_FIELD {
        if |p.bytes| < lengthType {
          return Failure(LengthBeyondPacket);
        }
        var padlen := |p.bytes| - lengthType;
        if padlen > MIN_PAYLOAD {
          return Failure(PadTooLong);
        }
        if padlen > 0 {
          var pad := p.RemoveAtEnd(padlen);
        }
        assert p.bytes == covered[14..][..lengthType];
        if |p.bytes| < 8 {
          return Failure(ShortPacket);
        }
        var llc := p.RemoveHeader(8);
        SliceOfPrefix(covered[14..][..lengthType], 8, 6, 8);
        protocol := ReadU16(llc[6..8]);
      } else {
        protocol := lengthType;
      }
      r := Success(Delivered(p.bytes, protocol, source, destination, Classify(address, destination)));
    }
  }
}
