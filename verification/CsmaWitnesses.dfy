/** Runs of two devices on one channel in which a device does not get its packets out as it should. */
module CsmaWitnesses {
  import opened Wrappers
  import opened Arithmetic
  import opened Backoffs
  import opened Frames
  import opened Transmitter
  import opened CsmaNetwork
  import opened CsmaLiveness

  const TAKE := Choice(true, 1)

  const REFUSE := Choice(false, 1)

  function TwoDevices(p: Params): Net {
    Net([NewDevice(p, 2, true), NewDevice(p, 2, true)], IDLE, multiset{})
  }

  /** One slot is a possible wait at the first retry. */
  lemma OneSlot(p: Params)
    requires p.minSlots == 1 <= p.maxSlots
    ensures PossibleSlots(p, 1, 1)
  {
    assert Exponent(p, 1) == 1 && Min(1, p.maxSlots) == 1;
  }

  lemma TwoSlots(p: Params)
    requires p.minSlots == 1 && 3 <= p.maxSlots && 2 <= p.ceiling
    ensures PossibleSlots(p, 2, 1)
  {
    assert Exponent(p, 2) == 2 && Pow2(2) == 4;
  }

  /** Device 1 takes the wire, and device 0 finds it busy. */
  const CROSSING := [
    Send(1, [9], TAKE),
    Send(0, [1], TAKE)]

  /** Device 0 is switched off while it backs off. */
  const WEDGING := CROSSING + OFF_WHILE_WAITING

  const OFF_WHILE_WAITING := [
    SetSendEnable(0, false),
    Fire(TimerEvent(0, StartTimer), TAKE)]

  /** Device 0 sends one of three packets and is switched off in the gap behind it. */
  const STRANDING := SENDING_THREE + GOING_OFF

  const SENDING_THREE := [
    Send(0, [1], TAKE),
    Send(0, [2], TAKE),
    Send(0, [3], TAKE)]

  const GOING_OFF := [
    Fire(TimerEvent(0, CompleteTimer), TAKE),
    SetSendEnable(0, false),
    Fire(TimerEvent(0, ReadyTimer), TAKE)]

  /** Device 0 fills its queue while it backs off behind device 1, and is then refused by the idle channel. */
  const CLOGGING := CROSSING + (FILLING + (FREEING + REFUSED))

  const FILLING := [
    Send(0, [2], TAKE),
    Send(0, [3], TAKE)]

  const REFUSED := [Fire(TimerEvent(0, StartTimer), REFUSE)]

  /** Device 0 backs off once behind device 1, is refused by the idle channel, and meets device 1 again. */
  const REFUSING := CROSSING + (FREEING + MEETING_AGAIN)

  const FREEING := [
    Fire(TimerEvent(1, CompleteTimer), TAKE),
    Fire(PropagationComplete, TAKE)]

  const MEETING_AGAIN := [
    Fire(TimerEvent(0, StartTimer), REFUSE),
    Fire(TimerEvent(1, ReadyTimer), TAKE),
    Send(1, [8], TAKE),
    Send(0, [2], TAKE)]

  /** A device on its first packet, after what it has finished before. */
  function Working(p: Params, tx: TxState, frame: Bytes, retries: nat, waits: seq<nat>, senses: seq<WireState>): Device
  {
    Device(p, 2, tx, Some(frame), [], retries, true, 0, waits, senses, [frame], [])
  }

  ghost predicate Leads(s: Net, l: Label, t: Net) {
    Enabled(s, l) && Next(s, l) == Success(t)
  }

  lemma SendLeads(s: Net, id: nat, frame: Bytes, c: Choice, e: Effect, t: Net)
    requires Enabled(s, Send(id, frame, c)) && SendFrame(s.devices[id], s.wire, frame, c) == Success(e)
    requires t.devices == s.devices[id := e.device] && t.wire == e.wire
    requires t.pending == s.pending + Post(id, e.posted)
    ensures Leads(s, Send(id, frame, c), t)
  {
  }

  lemma SwitchLeads(s: Net, id: nat, enable: bool, t: Net)
    requires id < |s.devices| && t.devices == s.devices[id := s.devices[id].(sendEnable := enable)]
    requires t.wire == s.wire && t.pending == s.pending
    ensures Leads(s, SetSendEnable(id, enable), t)
  {
  }

  /** A timer that posts nothing. */
  lemma FireLeads(s: Net, id: nat, timer: Timer, c: Choice, d: Device, t: Net)
    requires Enabled(s, Fire(TimerEvent(id, timer), c)) && !timer.CompleteTimer?
    requires OnTimer(s.devices[id], s.wire, timer, c) == Success(Effect(d, s.wire, None))
    requires t.devices == s.devices[id := d] && t.wire == s.wire
    requires t.pending == s.pending - multiset{TimerEvent(id, timer)}
    ensures Leads(s, Fire(TimerEvent(id, timer), c), t)
  {
    assert t.pending + multiset{} + Post(id, None) == t.pending;
    assert Handle(s.(pending := t.pending), id, timer, c) == Success(t);
  }

  lemma CompleteLeads(s: Net, id: nat, c: Choice, d: Device, t: Net)
    requires Enabled(s, Fire(TimerEvent(id, CompleteTimer), c))
    requires TransmitComplete(s.devices[id], s.wire) == Success(Effect(d, PROPAGATING, Some(ReadyTimer)))
    requires t.devices == s.devices[id := d] && t.wire == PROPAGATING
    requires t.pending == s.pending - multiset{TimerEvent(id, CompleteTimer)}
                            + multiset{PropagationComplete, TimerEvent(id, ReadyTimer)}
    ensures Leads(s, Fire(TimerEvent(id, CompleteTimer), c), t)
    ensures TimerEvent(id, ReadyTimer) in t.pending && PropagationComplete in t.pending
  {
    var posted := multiset{PropagationComplete} + Post(id, Some(ReadyTimer));
    assert posted == multiset{PropagationComplete, TimerEvent(id, ReadyTimer)};
    var left := s.pending - multiset{TimerEvent(id, CompleteTimer)};
    assert left + multiset{PropagationComplete} + Post(id, Some(ReadyTimer)) == left + posted;
    assert Handle(s.(pending := left), id, CompleteTimer, c) == Success(t);
  }

  lemma PropagationLeads(s: Net, c: Choice, t: Net)
    requires PropagationComplete in s.pending && s.wire.PROPAGATING?
    requires t.devices == s.devices && t.wire == IDLE && t.pending == s.pending - multiset{PropagationComplete}
    ensures Leads(s, Fire(PropagationComplete, c), t)
  {
  }

  /** States each of which leads to the next. */
  ghost predicate Path(states: seq<Net>, labels: seq<Label>) {
    |states| == |labels| + 1 && forall k :: 0 <= k < |labels| ==> Leads(states[k], labels[k], states[k + 1])
  }

  lemma Joined(front: seq<Net>, rest: seq<Net>, a: seq<Label>, b: seq<Label>)
    requires Path(front, a) && Path(rest, b) && front[|a|] == rest[0]
    ensures Path(front + rest[1..], a + b)
    ensures (front + rest[1..])[0] == front[0] && (front + rest[1..])[|a| + |b|] == rest[|b|]
  {
    var states, labels := front + rest[1..], a + b;
    assert forall k :: |a| <= k < |states| ==> states[k] == rest[k - |a|];
    forall k | 0 <= k < |labels| ensures Leads(states[k], labels[k], states[k + 1]) {
      if k >= |a| {
        assert labels[k] == b[k - |a|];
      }
    }
  }

  /** A path is a run. */
  lemma {:induction false} PathRuns(states: seq<Net>, labels: seq<Label>)
    requires Path(states, labels)
    ensures ValidRun(states[0], labels) && Run(states[0], labels) == Success(states[|labels|])
    decreases |labels|
  {
    if labels != [] {
      assert Leads(states[0], labels[0], states[1]);
      PathRuns(states[1..], labels[1..]);
    }
  }

  /** The first packet of a new device on a busy wire. */
  lemma SendOnBusyWire(p: Params, frame: Bytes)
    requires p.maxRetries > 0
    ensures SendFrame(NewDevice(p, 2, true), TRANSMITTING, frame, TAKE)
         == Success(Effect(Working(p, BACKOFF, frame, 1, [1], [TRANSMITTING]), TRANSMITTING, Some(StartTimer)))
  {
    var d := NewDevice(p, 2, true);
    assert Queued(d, frame).queue == [frame] && Queued(d, frame).accepted == [frame];
    var next := TakeNext(Queued(d, frame));
    assert next.queue == [];
    assert Sensed(next, TRANSMITTING).senses == [TRANSMITTING];
    assert BackedOff(Sensed(next, TRANSMITTING), 1).waits == [1];
    assert SendFrame(d, TRANSMITTING, frame, TAKE) == TransmitStart(next, TRANSMITTING, TAKE);
    assert BackedOff(Sensed(next, TRANSMITTING), 1) == Working(p, BACKOFF, frame, 1, [1], [TRANSMITTING]);
  }

  /** And on an idle one. */
  lemma SendOnIdleWire(p: Params, frame: Bytes)
    ensures SendFrame(NewDevice(p, 2, true), IDLE, frame, TAKE)
         == Success(Effect(Working(p, BUSY, frame, 0, [], [IDLE]), TRANSMITTING, Some(CompleteTimer)))
  {
    var d := NewDevice(p, 2, true);
    assert Queued(d, frame).queue == [frame] && Queued(d, frame).accepted == [frame];
    var next := TakeNext(Queued(d, frame));
    assert next.queue == [];
    assert Sensed(next, IDLE).senses == [IDLE];
    assert SendFrame(d, IDLE, frame, TAKE) == TransmitStart(next, IDLE, TAKE);
    assert Sensed(next, IDLE).(tx := BUSY) == Working(p, BUSY, frame, 0, [], [IDLE]);
  }

  /** A later packet of a READY device, on an idle wire that takes it. */
  lemma SendAgain(d: Device, frame: Bytes)
    requires d.sendEnable && d.tx.READY? && d.queue == [] && d.capacity > 0
    ensures SendFrame(d, IDLE, frame, TAKE)
         == Success(Effect(Sensed(TakeNext(Queued(d, frame)), IDLE).(retries := 0, tx := BUSY), TRANSMITTING,
                           Some(CompleteTimer)))
  {
    assert Queued(d, frame).queue == [frame];
    assert SendFrame(d, IDLE, frame, TAKE) == TransmitStart(TakeNext(Queued(d, frame)), IDLE, TAKE);
  }

  /** And one that finds the wire busy with no retries left. */
  lemma SendAborted(d: Device, frame: Bytes)
    requires d.sendEnable && d.tx.READY? && d.queue == [] && d.capacity > 0 && d.retries >= d.params.maxRetries
    ensures SendFrame(d, TRANSMITTING, frame, TAKE)
         == Success(Effect(AfterAbort(TakeNext(Queued(d, frame)), TRANSMITTING), TRANSMITTING, None))
  {
    var next := TakeNext(Queued(d, frame));
    assert Queued(d, frame).queue == [frame] && next.queue == [];
    AbortMovesOn(next, TRANSMITTING, TAKE);
    assert SendFrame(d, TRANSMITTING, frame, TAKE) == TransmitStart(next, TRANSMITTING, TAKE);
  }

  /** Device 1 while it sends its first packet. */
  lemma FirstPacket(p: Params, frame: Bytes) returns (busy: Device)
    requires p.minSlots == 1 <= p.maxSlots && p.maxRetries > 0
    ensures PossibleChoice(NewDevice(p, 2, true), TAKE)
    ensures SendFrame(NewDevice(p, 2, true), IDLE, frame, TAKE)
         == Success(Effect(busy, TRANSMITTING, Some(CompleteTimer)))
    ensures busy == Working(p, BUSY, frame, 0, [], [IDLE]) && PossibleChoice(busy, TAKE)
  {
    OneSlot(p);
    SendOnIdleWire(p, frame);
    busy := Working(p, BUSY, frame, 0, [], [IDLE]);
  }

  /** Device 0 backs off and is switched off. */
  lemma BackedOffThenOff(p: Params, frame: Bytes) returns (waiting: Device, stuck: Device)
    requires p.minSlots == 1 <= p.maxSlots && p.maxRetries > 1
    ensures SendFrame(NewDevice(p, 2, true), TRANSMITTING, frame, TAKE)
         == Success(Effect(waiting, TRANSMITTING, Some(StartTimer)))
    ensures PossibleSlots(p, 2, TAKE.slots) ==> PossibleChoice(waiting.(sendEnable := false), TAKE)
    ensures TransmitStart(waiting.(sendEnable := false), TRANSMITTING, TAKE)
         == Success(Effect(stuck, TRANSMITTING, None))
    ensures Wedged(stuck)
  {
    SendOnBusyWire(p, frame);
    waiting := Working(p, BACKOFF, frame, 1, [1], [TRANSMITTING]);
    stuck := Finish(waiting.(sendEnable := false), DroppedDisabled);
  }

  /** Switching a device off during a backoff wedges it. */
  lemma SwitchingOffWedges() returns (t: Net)
    ensures ValidRun(TwoDevices(DEFAULT_PARAMS), WEDGING) && Run(TwoDevices(DEFAULT_PARAMS), WEDGING) == Success(t)
    ensures |t.devices| == 2 && Wedged(t.devices[0])
  {
    var p := DEFAULT_PARAMS;
    var busy := FirstPacket(p, [9]);
    var waiting, stuck := BackedOffThenOff(p, [1]);
    TwoSlots(p);
    var front := Crossing(NewDevice(p, 2, true), busy, waiting);
    var rest := OffWhileWaiting(busy, waiting, stuck);
    Joined(front, rest, CROSSING, OFF_WHILE_WAITING);
    PathRuns(front + rest[1..], WEDGING);
    t := rest[2];
  }

  function Crossed(busy: Device, waiting: Device): Net {
    Net([waiting, busy], TRANSMITTING, multiset{TimerEvent(1, CompleteTimer), TimerEvent(0, StartTimer)})
  }

  lemma Crossing(idle: Device, busy: Device, waiting: Device) returns (states: seq<Net>)
    requires PossibleChoice(idle, TAKE)
    requires SendFrame(idle, IDLE, [9], TAKE) == Success(Effect(busy, TRANSMITTING, Some(CompleteTimer)))
    requires SendFrame(idle, TRANSMITTING, [1], TAKE) == Success(Effect(waiting, TRANSMITTING, Some(StartTimer)))
    ensures Path(states, CROSSING) && states[0] == Net([idle, idle], IDLE, multiset{})
    ensures states[2] == Crossed(busy, waiting)
  {
    var complete := TimerEvent(1, CompleteTimer);
    var s0 := Net([idle, idle], IDLE, multiset{});
    var s1 := Net([idle, busy], TRANSMITTING, multiset{complete});
    var s2 := Crossed(busy, waiting);
    SendLeads(s0, 1, [9], TAKE, Effect(busy, TRANSMITTING, Some(CompleteTimer)), s1);
    SendLeads(s1, 0, [1], TAKE, Effect(waiting, TRANSMITTING, Some(StartTimer)), s2);
    states := [s0, s1, s2];
  }

  lemma OffWhileWaiting(busy: Device, waiting: Device, stuck: Device) returns (states: seq<Net>)
    requires PossibleChoice(waiting.(sendEnable := false), TAKE)
    requires TransmitStart(waiting.(sendEnable := false), TRANSMITTING, TAKE)
          == Success(Effect(stuck, TRANSMITTING, None))
    ensures Path(states, OFF_WHILE_WAITING) && states[0] == Crossed(busy, waiting)
    ensures states[2].devices == [stuck, busy]
  {
    var s0, s1 := Crossed(busy, waiting), Crossed(busy, waiting.(sendEnable := false));
    var s2 := Net([stuck, busy], TRANSMITTING, s1.pending - multiset{TimerEvent(0, StartTimer)});
    SwitchLeads(s0, 0, false, s1);
    FireLeads(s1, 0, StartTimer, TAKE, stuck, s2);
    states := [s0, s1, s2];
  }

  /** What device 0 goes through when it is switched off behind the first of three packets. */
  lemma SentThenOff(p: Params) returns (busy: Device, one: Device, full: Device, gap: Device, stuck: Device)
    requires p.minSlots == 1 <= p.maxSlots && p.maxRetries > 0
    ensures PossibleChoice(NewDevice(p, 2, true), TAKE)
    ensures SendFrame(NewDevice(p, 2, true), IDLE, [1], TAKE)
         == Success(Effect(busy, TRANSMITTING, Some(CompleteTimer)))
    ensures PossibleChoice(busy, TAKE) && PossibleChoice(one, TAKE) && PossibleChoice(full, TAKE)
    ensures SendFrame(busy, TRANSMITTING, [2], TAKE) == Success(Effect(one, TRANSMITTING, None))
    ensures SendFrame(one, TRANSMITTING, [3], TAKE) == Success(Effect(full, TRANSMITTING, None))
    ensures TransmitComplete(full, TRANSMITTING) == Success(Effect(gap, PROPAGATING, Some(ReadyTimer)))
    ensures PossibleChoice(gap.(sendEnable := false), TAKE)
    ensures TransmitReady(gap.(sendEnable := false), PROPAGATING, TAKE) == Success(Effect(stuck, PROPAGATING, None))
    ensures Stranded(stuck) && stuck.queue == [[3]]
  {
    busy := FirstPacket(p, [1]);
    one := Queued(busy, [2]);
    full := Queued(one, [3]);
    assert full.queue == [[2], [3]];
    gap := Finish(full, Sent).(tx := GAP);
    var last := TakeNext(gap.(sendEnable := false, tx := READY));
    stuck := Finish(last, DroppedDisabled);
    assert StartNext(gap.(sendEnable := false, tx := READY), PROPAGATING, TAKE)
        == TransmitStart(last, PROPAGATING, TAKE);
  }

  /** Switching a device off in the gap leaves it READY with a packet queued and no timer. */
  lemma SwitchingOffStrands() returns (t: Net)
    ensures ValidRun(TwoDevices(DEFAULT_PARAMS), STRANDING) && Run(TwoDevices(DEFAULT_PARAMS), STRANDING) == Success(t)
    ensures |t.devices| == 2 && Stranded(t.devices[0]) && t.devices[0].queue == [[3]]
  {
    var p := DEFAULT_PARAMS;
    var busy, one, full, gap, stuck := SentThenOff(p);
    var idle := NewDevice(p, 2, true);
    var front := SendingThree(idle, busy, one, full);
    var rest := GoingOff(idle, full, gap, stuck);
    Joined(front, rest, SENDING_THREE, GOING_OFF);
    PathRuns(front + rest[1..], STRANDING);
    t := rest[3];
  }

  lemma SendingThree(idle: Device, busy: Device, one: Device, full: Device) returns (states: seq<Net>)
    requires PossibleChoice(idle, TAKE) && PossibleChoice(busy, TAKE) && PossibleChoice(one, TAKE)
    requires SendFrame(idle, IDLE, [1], TAKE) == Success(Effect(busy, TRANSMITTING, Some(CompleteTimer)))
    requires SendFrame(busy, TRANSMITTING, [2], TAKE) == Success(Effect(one, TRANSMITTING, None))
    requires SendFrame(one, TRANSMITTING, [3], TAKE) == Success(Effect(full, TRANSMITTING, None))
    ensures Path(states, SENDING_THREE) && states[0] == Net([idle, idle], IDLE, multiset{})
    ensures states[3] == Net([full, idle], TRANSMITTING, multiset{TimerEvent(0, CompleteTimer)})
  {
    var complete := TimerEvent(0, CompleteTimer);
    var s0 := Net([idle, idle], IDLE, multiset{});
    var s1 := Net([busy, idle], TRANSMITTING, multiset{complete});
    var s2 := Net([one, idle], TRANSMITTING, multiset{complete});
    var s3 := Net([full, idle], TRANSMITTING, multiset{complete});
    SendLeads(s0, 0, [1], TAKE, Effect(busy, TRANSMITTING, Some(CompleteTimer)), s1);
    SendLeads(s1, 0, [2], TAKE, Effect(one, TRANSMITTING, None), s2);
    SendLeads(s2, 0, [3], TAKE, Effect(full, TRANSMITTING, None), s3);
    states := [s0, s1, s2, s3];
  }

  lemma GoingOff(idle: Device, full: Device, gap: Device, stuck: Device) returns (states: seq<Net>)
    requires PossibleChoice(full, TAKE) && PossibleChoice(gap.(sendEnable := false), TAKE)
    requires TransmitComplete(full, TRANSMITTING) == Success(Effect(gap, PROPAGATING, Some(ReadyTimer)))
    requires TransmitReady(gap.(sendEnable := false), PROPAGATING, TAKE) == Success(Effect(stuck, PROPAGATING, None))
    ensures Path(states, GOING_OFF)
    ensures states[0] == Net([full, idle], TRANSMITTING, multiset{TimerEvent(0, CompleteTimer)})
    ensures states[3].devices == [stuck, idle]
  {
    var ready := TimerEvent(0, ReadyTimer);
    var s0 := Net([full, idle], TRANSMITTING, multiset{TimerEvent(0, CompleteTimer)});
    var posted := multiset{PropagationComplete, ready};
    var s1 := Net([gap, idle], PROPAGATING, s0.pending - multiset{TimerEvent(0, CompleteTimer)} + posted);
    CompleteLeads(s0, 0, TAKE, gap, s1);
    var s2, s3 := OffInGap(s1, idle, gap, stuck);
    states := [s0, s1, s2, s3];
  }

  lemma OffInGap(s1: Net, idle: Device, gap: Device, stuck: Device) returns (s2: Net, s3: Net)
    requires s1.devices == [gap, idle] && s1.wire == PROPAGATING && TimerEvent(0, ReadyTimer) in s1.pending
    requires PossibleChoice(gap.(sendEnable := false), TAKE)
    requires TransmitReady(gap.(sendEnable := false), PROPAGATING, TAKE) == Success(Effect(stuck, PROPAGATING, None))
    ensures Leads(s1, SetSendEnable(0, false), s2) && Leads(s2, Fire(TimerEvent(0, ReadyTimer), TAKE), s3)
    ensures s3.devices == [stuck, idle]
  {
    s2 := Net([gap.(sendEnable := false), idle], PROPAGATING, s1.pending);
    s3 := Net([stuck, idle], PROPAGATING, s2.pending - multiset{TimerEvent(0, ReadyTimer)});
    SwitchLeads(s1, 0, false, s2);
    FireLeads(s2, 0, ReadyTimer, TAKE, stuck, s3);
  }

  const ONE_RETRY := Params(1, 1000, 10, 1)

  /** What device 0 goes through when it is refused after a backoff and then meets a busy wire. */
  lemma RefusedThenBusy(p: Params) returns (waiting: Device, refused: Device, aborted: Device)
    requires p == ONE_RETRY
    ensures SendFrame(NewDevice(p, 2, true), TRANSMITTING, [1], TAKE)
         == Success(Effect(waiting, TRANSMITTING, Some(StartTimer)))
    ensures PossibleChoice(waiting, REFUSE)
    ensures TransmitStart(waiting, IDLE, REFUSE) == Success(Effect(refused, IDLE, None))
    ensures PossibleChoice(refused, TAKE)
    ensures SendFrame(refused, TRANSMITTING, [2], TAKE) == Success(Effect(aborted, TRANSMITTING, None))
    ensures aborted.finished
         == [Record([1], DroppedRefused, 0, [1], [TRANSMITTING, IDLE]), Record([2], Aborted, 1, [], [TRANSMITTING])]
  {
    OneSlot(p);
    SendOnBusyWire(p, [1]);
    waiting := Working(p, BACKOFF, [1], 1, [1], [TRANSMITTING]);
    refused := Finish(Sensed(waiting, IDLE), DroppedRefused).(tx := READY);
    SendAborted(refused, [2]);
    aborted := AfterAbort(TakeNext(Queued(refused, [2])), TRANSMITTING);
    assert Sensed(waiting, IDLE).senses == [TRANSMITTING, IDLE];
    assert refused.finished == [Record([1], DroppedRefused, 0, [1], [TRANSMITTING, IDLE])];
  }

  /** What device 1 goes through meanwhile: it sends two packets. */
  lemma SendsTwice(p: Params) returns (busy: Device, gap: Device, done: Device, again: Device)
    requires p.minSlots == 1 <= p.maxSlots && p.maxRetries > 0
    ensures PossibleChoice(NewDevice(p, 2, true), TAKE)
    ensures SendFrame(NewDevice(p, 2, true), IDLE, [9], TAKE)
         == Success(Effect(busy, TRANSMITTING, Some(CompleteTimer)))
    ensures PossibleChoice(busy, TAKE)
    ensures TransmitComplete(busy, TRANSMITTING) == Success(Effect(gap, PROPAGATING, Some(ReadyTimer)))
    ensures PossibleChoice(gap, TAKE) && TransmitReady(gap, IDLE, TAKE) == Success(Effect(done, IDLE, None))
    ensures PossibleChoice(done, TAKE)
    ensures SendFrame(done, IDLE, [8], TAKE) == Success(Effect(again, TRANSMITTING, Some(CompleteTimer)))
  {
    busy := FirstPacket(p, [9]);
    gap := Finish(busy, Sent).(tx := GAP);
    done := gap.(tx := READY);
    SendAgain(done, [8]);
    again := Sensed(TakeNext(Queued(done, [8])), IDLE).(retries := 0, tx := BUSY);
  }

  /** A refusal can cost the next packet its retries: with one retry allowed, the second packet of device 0 is aborted
      the first time it finds the wire busy. */
  lemma RefusalShortensNextBudget() returns (t: Net)
    ensures ValidRun(TwoDevices(ONE_RETRY), REFUSING) && Run(TwoDevices(ONE_RETRY), REFUSING) == Success(t)
    ensures |t.devices| == 2
    ensures t.devices[0].finished
         == [Record([1], DroppedRefused, 0, [1], [TRANSMITTING, IDLE]), Record([2], Aborted, 1, [], [TRANSMITTING])]
  {
    var busy, gap, done, again := SendsTwice(ONE_RETRY);
    var waiting, refused, aborted := RefusedThenBusy(ONE_RETRY);
    var idle := NewDevice(ONE_RETRY, 2, true);
    var front := Crossing(idle, busy, waiting);
    var middle := Freeing(busy, gap, waiting);
    var rest := MeetingAgain(gap, done, again, waiting, refused, aborted);
    Joined(middle, rest, FREEING, MEETING_AGAIN);
    Joined(front, middle + rest[1..], CROSSING, FREEING + MEETING_AGAIN);
    PathRuns(front + (middle + rest[1..])[1..], REFUSING);
    t := rest[4];
  }

  lemma Freeing(busy: Device, gap: Device, waiting: Device) returns (states: seq<Net>)
    requires PossibleChoice(busy, TAKE)
    requires TransmitComplete(busy, TRANSMITTING) == Success(Effect(gap, PROPAGATING, Some(ReadyTimer)))
    ensures Path(states, FREEING) && states[0] == Crossed(busy, waiting)
    ensures states[2] == Net([waiting, gap], IDLE, multiset{TimerEvent(0, StartTimer), TimerEvent(1, ReadyTimer)})
  {
    var ready, start := TimerEvent(1, ReadyTimer), TimerEvent(0, StartTimer);
    var s0 := Crossed(busy, waiting);
    var left := s0.pending - multiset{TimerEvent(1, CompleteTimer)};
    assert left == multiset{start};
    var s1 := Net([waiting, gap], PROPAGATING, left + multiset{PropagationComplete, ready});
    var s2 := Net([waiting, gap], IDLE, multiset{start, ready});
    CompleteLeads(s0, 1, TAKE, gap, s1);
    PropagationLeads(s1, TAKE, s2);
    states := [s0, s1, s2];
  }

  lemma MeetingAgain(gap: Device, done: Device, again: Device, waiting: Device, refused: Device, aborted: Device)
    returns (states: seq<Net>)
    requires PossibleChoice(gap, TAKE) && PossibleChoice(done, TAKE)
    requires PossibleChoice(waiting, REFUSE) && PossibleChoice(refused, TAKE)
    requires TransmitStart(waiting, IDLE, REFUSE) == Success(Effect(refused, IDLE, None))
    requires TransmitReady(gap, IDLE, TAKE) == Success(Effect(done, IDLE, None))
    requires SendFrame(done, IDLE, [8], TAKE) == Success(Effect(again, TRANSMITTING, Some(CompleteTimer)))
    requires SendFrame(refused, TRANSMITTING, [2], TAKE) == Success(Effect(aborted, TRANSMITTING, None))
    ensures Path(states, MEETING_AGAIN)
    ensures states[0] == Net([waiting, gap], IDLE, multiset{TimerEvent(0, StartTimer), TimerEvent(1, ReadyTimer)})
    ensures states[4].devices == [aborted, again]
  {
    var ready, start := TimerEvent(1, ReadyTimer), TimerEvent(0, StartTimer);
    var s0 := Net([waiting, gap], IDLE, multiset{start, ready});
    var s1 := Net([refused, gap], IDLE, s0.pending - multiset{start});
    var s2 := Net([refused, done], IDLE, s1.pending - multiset{ready});
    FireLeads(s0, 0, StartTimer, REFUSE, refused, s1);
    FireLeads(s1, 1, ReadyTimer, TAKE, done, s2);
    var s3, s4 := Meeting(s2, done, again, refused, aborted);
    states := [s0, s1, s2, s3, s4];
  }

  lemma Meeting(s2: Net, done: Device, again: Device, refused: Device, aborted: Device) returns (s3: Net, s4: Net)
    requires s2.devices == [refused, done] && s2.wire == IDLE
    requires PossibleChoice(done, TAKE) && PossibleChoice(refused, TAKE)
    requires SendFrame(done, IDLE, [8], TAKE) == Success(Effect(again, TRANSMITTING, Some(CompleteTimer)))
    requires SendFrame(refused, TRANSMITTING, [2], TAKE) == Success(Effect(aborted, TRANSMITTING, None))
    ensures Leads(s2, Send(1, [8], TAKE), s3) && Leads(s3, Send(0, [2], TAKE), s4)
    ensures s4.devices == [aborted, again]
  {
    s3 := Net([refused, again], TRANSMITTING, s2.pending + Post(1, Some(CompleteTimer)));
    s4 := Net([aborted, again], TRANSMITTING, s3.pending + Post(0, None));
    SendLeads(s2, 1, [8], TAKE, Effect(again, TRANSMITTING, Some(CompleteTimer)), s3);
    SendLeads(s3, 0, [2], TAKE, Effect(aborted, TRANSMITTING, None), s4);
  }

  /** What device 0 goes through when it fills its queue and is then refused. */
  lemma FilledThenRefused(p: Params) returns (waiting: Device, one: Device, full: Device, clogged: Device)
    requires p == DEFAULT_PARAMS
    ensures SendFrame(NewDevice(p, 2, true), TRANSMITTING, [1], TAKE)
         == Success(Effect(waiting, TRANSMITTING, Some(StartTimer)))
    ensures PossibleChoice(waiting, TAKE) && SendFrame(waiting, TRANSMITTING, [2], TAKE)
         == Success(Effect(one, TRANSMITTING, None))
    ensures PossibleChoice(one, TAKE) && SendFrame(one, TRANSMITTING, [3], TAKE)
         == Success(Effect(full, TRANSMITTING, None))
    ensures PossibleChoice(full, REFUSE) && TransmitStart(full, IDLE, REFUSE) == Success(Effect(clogged, IDLE, None))
    ensures Stranded(clogged) && |clogged.queue| == clogged.capacity
  {
    TwoSlots(p);
    SendOnBusyWire(p, [1]);
    waiting := Working(p, BACKOFF, [1], 1, [1], [TRANSMITTING]);
    one := Queued(waiting, [2]);
    full := Queued(one, [3]);
    assert full.queue == [[2], [3]];
    clogged := Finish(Sensed(full, IDLE), DroppedRefused).(tx := READY);
  }

  /** A refusal can leave a device READY with a full queue, and then nothing ever frees it. */
  lemma RefusalClogsFullQueue() returns (t: Net)
    ensures ValidRun(TwoDevices(DEFAULT_PARAMS), CLOGGING) && Run(TwoDevices(DEFAULT_PARAMS), CLOGGING) == Success(t)
    ensures |t.devices| == 2 && Stranded(t.devices[0]) && |t.devices[0].queue| == t.devices[0].capacity
  {
    var p := DEFAULT_PARAMS;
    var busy, gap, done, again := SendsTwice(p);
    var waiting, one, full, clogged := FilledThenRefused(p);
    var front := Crossing(NewDevice(p, 2, true), busy, waiting);
    var filling := Filling(busy, waiting, one, full);
    var freeing := Freeing(busy, gap, full);
    var rest := Refused(gap, full, clogged);
    Joined(freeing, rest, FREEING, REFUSED);
    Joined(filling, freeing + rest[1..], FILLING, FREEING + REFUSED);
    var later := filling + (freeing + rest[1..])[1..];
    Joined(front, later, CROSSING, FILLING + (FREEING + REFUSED));
    PathRuns(front + later[1..], CLOGGING);
    t := rest[1];
  }

  lemma Filling(busy: Device, waiting: Device, one: Device, full: Device) returns (states: seq<Net>)
    requires PossibleChoice(waiting, TAKE) && PossibleChoice(one, TAKE)
    requires SendFrame(waiting, TRANSMITTING, [2], TAKE) == Success(Effect(one, TRANSMITTING, None))
    requires SendFrame(one, TRANSMITTING, [3], TAKE) == Success(Effect(full, TRANSMITTING, None))
    ensures Path(states, FILLING) && states[0] == Crossed(busy, waiting) && states[2] == Crossed(busy, full)
  {
    var s0, s1, s2 := Crossed(busy, waiting), Crossed(busy, one), Crossed(busy, full);
    SendLeads(s0, 0, [2], TAKE, Effect(one, TRANSMITTING, None), s1);
    SendLeads(s1, 0, [3], TAKE, Effect(full, TRANSMITTING, None), s2);
    states := [s0, s1, s2];
  }

  lemma Refused(gap: Device, full: Device, clogged: Device) returns (states: seq<Net>)
    requires PossibleChoice(full, REFUSE)
    requires TransmitStart(full, IDLE, REFUSE) == Success(Effect(clogged, IDLE, None))
    ensures Path(states, REFUSED)
    ensures states[0] == Net([full, gap], IDLE, multiset{TimerEvent(0, StartTimer), TimerEvent(1, ReadyTimer)})
    ensures states[1].devices == [clogged, gap]
  {
    var s0 := Net([full, gap], IDLE, multiset{TimerEvent(0, StartTimer), TimerEvent(1, ReadyTimer)});
    var s1 := Net([clogged, gap], IDLE, s0.pending - multiset{TimerEvent(0, StartTimer)});
    FireLeads(s0, 0, StartTimer, REFUSE, clogged, s1);
    states := [s0, s1];
  }
}
