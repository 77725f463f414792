/** The four-state transmitter of one CSMA device as functions on values.
    Every NS_ASSERT is a check that can fail; what the device does not decide comes in as a Choice. */
module Transmitter {
  import opened Wrappers
  import opened Backoffs
  import opened Frames

  datatype TxState = READY | BUSY | GAP | BACKOFF

  datatype WireState = IDLE | TRANSMITTING | PROPAGATING

  /** Handlers a device can have posted to the simulator. */
  datatype Timer = StartTimer | CompleteTimer | ReadyTimer

  datatype Fate = Sent | DroppedDisabled | DroppedRefused | Aborted

  /** A finished packet: `inherited` is the retry counter when it became current, `waits` its backoffs, and `senses`
      what its attempts found on the wire, in order. */
  datatype Record = Record(frame: Bytes, fate: Fate, inherited: nat, waits: seq<nat>, senses: seq<WireState>)

  /** The assertions of the transmit path. */
  datatype Site =
    | StartWithoutPacket | StartNotReady
    | AbortWithoutPacket | AbortNotInBackoff
    | CompleteNotBusy | CompleteWireNotTransmitting | CompleteWithoutPacket
    | ReadyNotInGap | ReadyWithPacket
    | PropagationNotUnderWay

  /** The device's fields, and the history of what it accepted and what became of it. */
  datatype Device = Device(
    params: Params,
    capacity: nat,
    tx: TxState,
    current: Option<Bytes>,
    queue: seq<Bytes>,
    retries: nat,
    sendEnable: bool,
    inherited: nat,
    waits: seq<nat>,
    senses: seq<WireState>,
    accepted: seq<Bytes>,
    finished: seq<Record>)

  /** What the channel and the random generator decide: whether an idle channel takes the packet, and the
      number of slots drawn if the device backs off. */
  datatype Choice = Choice(accept: bool, slots: nat)

  datatype Effect = Effect(device: Device, wire: WireState, posted: Option<Timer>)

  function NewDevice(params: Params, capacity: nat, sendEnable: bool): Device {
    Device(params, capacity, READY, None, [], 0, sendEnable, 0, [], [], [], [])
  }

  /** The value of the counter with which the next backoff is drawn. */
  function NextRetry(d: Device): nat {
    if d.retries < d.params.maxRetries then d.retries + 1 else 1
  }

  ghost predicate PossibleChoice(d: Device, c: Choice) {
    PossibleSlots(d.params, NextRetry(d), c.slots)
  }

  /** Some possible choice. */
  ghost function AnyChoice(d: Device): (c: Choice)
    ensures PossibleChoice(d, c)
  {
    SlotLimitIsMaximum(d.params, NextRetry(d));
    Choice(true, SlotLimit(d.params, NextRetry(d)))
  }

  function RecordOf(d: Device, fate: Fate): Record
    requires d.current.Some?
  {
    Record(d.current.value, fate, d.inherited, d.waits, d.senses)
  }

  function Finish(d: Device, fate: Fate): Device
    requires d.current.Some?
  {
    d.(current := None, finished := d.finished + [RecordOf(d, fate)])
  }

  /** The device with one more sense of the wire on the packet's history. */
  function Sensed(d: Device, wire: WireState): Device {
    d.(senses := d.senses + [wire])
  }

  function TakeNext(d: Device): Device
    requires d.queue != []
  {
    d.(current := Some(d.queue[0]), queue := d.queue[1..], inherited := d.retries, waits := [], senses := [])
  }

  function TransmitStart(d: Device, wire: WireState, c: Choice): Result<Effect, Site>
    decreases |d.queue|, 2
  {
    if d.current.None? then
      Failure(StartWithoutPacket)
    else if !d.sendEnable then
      Success(Effect(Finish(d, DroppedDisabled), wire, None))
    else if d.tx.BUSY? || d.tx.GAP? then
      Failure(StartNotReady)
    else
      var sensed := Sensed(d, wire);
      if !wire.IDLE? then
        if d.retries >= d.params.maxRetries then TransmitAbort(sensed.(tx := BACKOFF), wire, c)
        else Success(Effect(BackedOff(sensed, c.slots), wire, Some(StartTimer)))
      else if !c.accept then
        Success(Effect(Finish(sensed, DroppedRefused).(tx := READY), wire, None))
      else
        Success(Effect(sensed.(retries := 0, tx := BUSY), TRANSMITTING, Some(CompleteTimer)))
  }

  function BackedOff(d: Device, slots: nat): Device {
    d.(tx := BACKOFF, retries := (d.retries + 1) % UINT32_LIMIT, waits := d.waits + [slots])
  }

  function TransmitAbort(d: Device, wire: WireState, c: Choice): Result<Effect, Site>
    decreases |d.queue|, 1
  {
    if d.current.None? then Failure(AbortWithoutPacket)
    else if !d.tx.BACKOFF? then Failure(AbortNotInBackoff)
    else StartNext(Aborting(d), wire, c)
  }

  /** Takes the head of the queue, if there is one, and tries to send it. */
  function StartNext(d: Device, wire: WireState, c: Choice): Result<Effect, Site>
    decreases |d.queue|, 0
  {
    if d.queue == [] then Success(Effect(d, wire, None)) else TransmitStart(TakeNext(d), wire, c)
  }

  function TransmitComplete(d: Device, wire: WireState): Result<Effect, Site> {
    if !d.tx.BUSY? then Failure(CompleteNotBusy)
    else if !wire.TRANSMITTING? then Failure(CompleteWireNotTransmitting)
    else if d.current.None? then Failure(CompleteWithoutPacket)
    else Success(Effect(Finish(d, Sent).(tx := GAP), PROPAGATING, Some(ReadyTimer)))
  }

  function TransmitReady(d: Device, wire: WireState, c: Choice): Result<Effect, Site> {
    if !d.tx.GAP? then Failure(ReadyNotInGap)
    else if d.current.Some? then Failure(ReadyWithPacket)
    else StartNext(d.(tx := READY), wire, c)
  }

  /** The handler of each timer. */
  function OnTimer(d: Device, wire: WireState, timer: Timer, c: Choice): Result<Effect, Site> {
    match timer
    case StartTimer => TransmitStart(d, wire, c)
    case CompleteTimer => TransmitComplete(d, wire)
    case ReadyTimer => TransmitReady(d, wire, c)
  }

  /** Whether SendFrom accepts a packet. */
  predicate Accepts(d: Device) {
    d.sendEnable && |d.queue| < d.capacity
  }

  /** SendFrom, once the packet is framed. */
  function SendFrame(d: Device, wire: WireState, frame: Bytes, c: Choice): Result<Effect, Site> {
    if !Accepts(d) then
      Success(Effect(d, wire, None))
    else
      var queued := Queued(d, frame);
      if d.tx.READY? then StartNext(queued, wire, c) else Success(Effect(queued, wire, None))
  }

  function Queued(d: Device, frame: Bytes): Device {
    d.(queue := d.queue + [frame], accepted := d.accepted + [frame])
  }

  /** The device once TransmitAbort has dropped the current packet. */
  function Aborting(d: Device): Device
    requires d.current.Some?
  {
    Finish(d, Aborted).(retries := 0, tx := READY)
  }

  /** The same for a device whose last sense of the wire is not yet recorded. */
  function AfterAbort(d: Device, wire: WireState): Device
    requires d.current.Some?
  {
    Aborting(Sensed(d, wire))
  }

  // ---------- what a device keeps ----------

  function FramesOf(records: seq<Record>): seq<Bytes> {
    seq(|records|, i requires 0 <= i < |records| => records[i].frame)
  }

  function InFlight(d: Device): seq<Bytes> {
    if d.current.Some? then [d.current.value] else []
  }

  /** Conservation and order: every accepted packet is finished, current or queued, in acceptance order. */
  ghost predicate Conserved(d: Device) {
    FramesOf(d.finished) + InFlight(d) + d.queue == d.accepted
  }

  /** The retry budget of one packet. */
  ghost predicate WithinBudget(p: Params, inherited: nat, waits: seq<nat>) {
    inherited + |waits| <= p.maxRetries && PossibleWaits(p, inherited, waits)
  }

  predicate AllBusy(senses: seq<WireState>) {
    forall k :: 0 <= k < |senses| ==> !senses[k].IDLE?
  }

  predicate BusyThenIdle(senses: seq<WireState>) {
    var last := |senses| - 1;
    senses != [] && AllBusy(senses[..last]) && senses[last].IDLE?
  }

  /** The attempts behind a fate. Every backoff follows a busy sense; a packet the channel took or refused sensed
      idle in the end, and an aborted one never. */
  predicate Heard(r: Record) {
    match r.fate
    case Sent => BusyThenIdle(r.senses) && |r.senses| == |r.waits| + 1
    case DroppedRefused => BusyThenIdle(r.senses) && |r.senses| == |r.waits| + 1
    case Aborted => AllBusy(r.senses) && |r.senses| == |r.waits| + 1
    case DroppedDisabled => AllBusy(r.senses) && |r.senses| == |r.waits|
  }

  ghost predicate RecordOk(p: Params, r: Record) {
    && Heard(r)
    && WithinBudget(p, r.inherited, r.waits)
    && (r.fate.Aborted? ==> r.inherited + |r.waits| == p.maxRetries)
  }

  /** What a finished packet leaves on the retry counter for the next one: only sending and aborting reset it. */
  predicate Resets(fate: Fate) { fate.Sent? || fate.Aborted? }

  function Leftover(r: Record): nat {
    if Resets(r.fate) then 0 else r.inherited + |r.waits|
  }

  function LastLeftover(records: seq<Record>): nat {
    if records == [] then 0 else Leftover(records[|records| - 1])
  }

  /** Every packet starts with the counter its predecessor left. */
  ghost predicate Inherits(records: seq<Record>) {
    records != [] ==>
      var last := |records| - 1;
      records[last].inherited == LastLeftover(records[..last]) && Inherits(records[..last])
  }

  ghost predicate Books(d: Device) {
    && Conserved(d)
    && Inherits(d.finished)
    && (if d.current.Some? then d.inherited else d.retries) == LastLeftover(d.finished)
    && |d.queue| <= d.capacity
    && d.retries <= d.params.maxRetries
    && (forall r :: r in d.finished ==> RecordOk(d.params, r))
  }

  /** A current packet that may be handed to TransmitStart. */
  ghost predicate Startable(d: Device) {
    && Books(d)
    && d.current.Some?
    && (d.tx.READY? || d.tx.BACKOFF?)
    && d.retries == d.inherited + |d.waits|
    && |d.senses| == |d.waits| && AllBusy(d.senses)
    && PossibleWaits(d.params, d.inherited, d.waits)
  }

  /** What holds between events: state, packet and retry counter agree. */
  ghost predicate AtRest(d: Device) {
    && Books(d)
    && (d.tx.READY? ==> d.current.None?)
    && (d.tx.BUSY? ==> d.current.Some? && d.retries == 0 && RecordOk(d.params, RecordOf(d, Sent)))
    && (d.tx.GAP? ==> d.current.None? && d.retries == 0)
    && (d.tx.BACKOFF? && d.current.Some? ==> Startable(d) && d.waits != [])
  }

  /** The one timer the device must have pending. */
  function Expected(d: Device): Option<Timer> {
    match d.tx
    case READY => None
    case BUSY => Some(CompleteTimer)
    case GAP => Some(ReadyTimer)
    case BACKOFF => if d.current.Some? then Some(StartTimer) else None
  }

  /** In BACKOFF without packet and timer. */
  predicate Wedged(d: Device) {
    d.tx.BACKOFF? && d.current.None?
  }

  /** A step that starts transmission changes the wire from idle to transmitting exactly when it ends BUSY. */
  ghost predicate Seizes(d: Device, wire: WireState, e: Effect) {
    && (e.device.tx.BUSY? ==> wire.IDLE? && e.wire.TRANSMITTING?)
    && (!e.device.tx.BUSY? ==> e.wire == wire)
    && e.device.params == d.params && e.device.capacity == d.capacity && e.device.sendEnable == d.sendEnable
    && e.device.accepted == d.accepted
    && e.posted == Expected(e.device)
    && !e.device.tx.GAP?
  }

  lemma FinishBooks(d: Device, fate: Fate)
    requires Books(d) && d.current.Some? && RecordOk(d.params, RecordOf(d, fate))
    requires Resets(fate) || d.retries == d.inherited + |d.waits|
    ensures Books(if Resets(fate) then Finish(d, fate).(retries := 0) else Finish(d, fate))
  {
    var f := Finish(d, fate);
    assert FramesOf(f.finished) == FramesOf(d.finished) + InFlight(d);
    FinishedInherits(d, f);
  }

  lemma FinishedInherits(d: Device, f: Device)
    requires Books(d) && d.current.Some? && |f.finished| == |d.finished| + 1
    requires f.finished[..|d.finished|] == d.finished && f.finished[|d.finished|].inherited == d.inherited
    ensures Inherits(f.finished)
    ensures forall r :: r in f.finished ==> r in d.finished || r == f.finished[|d.finished|]
  {
    assert f.finished == d.finished + [f.finished[|d.finished|]];
  }

  lemma TakeNextStartable(d: Device)
    requires Books(d) && d.tx.READY? && d.current.None? && d.queue != []
    ensures Startable(TakeNext(d))
  {
    var t := TakeNext(d);
    assert InFlight(t) + t.queue == InFlight(d) + d.queue;
    assert FramesOf(t.finished) + InFlight(t) + t.queue == FramesOf(d.finished) + (InFlight(t) + t.queue);
    assert FramesOf(d.finished) + InFlight(d) + d.queue == FramesOf(d.finished) + (InFlight(d) + d.queue);
  }

  /** Sensing the wire busy once too often moves on to the next packet, if there is one. */
  lemma AbortMovesOn(d: Device, wire: WireState, c: Choice)
    requires d.current.Some? && (d.tx.READY? || d.tx.BACKOFF?)
    requires d.sendEnable && !wire.IDLE? && d.retries >= d.params.maxRetries
    ensures d.queue == [] ==> TransmitStart(d, wire, c) == Success(Effect(AfterAbort(d, wire), wire, None))
    ensures d.queue != [] ==> TransmitStart(d, wire, c) == TransmitStart(TakeNext(AfterAbort(d, wire)), wire, c)
  {
    var sensed := Sensed(d, wire);
    assert Aborting(sensed) == Aborting(sensed.(tx := BACKOFF));
    assert TransmitStart(d, wire, c) == TransmitAbort(sensed.(tx := BACKOFF), wire, c)
        == StartNext(Aborting(sensed), wire, c);
  }

  lemma AbortStep(d: Device, wire: WireState, c: Choice)
    requires Startable(d) && d.sendEnable && !wire.IDLE? && d.retries >= d.params.maxRetries
    ensures Books(AfterAbort(d, wire)) && AfterAbort(d, wire).current.None?
    ensures d.queue == [] ==> TransmitStart(d, wire, c) == Success(Effect(AfterAbort(d, wire), wire, None))
    ensures d.queue != [] ==> Startable(TakeNext(AfterAbort(d, wire)))
    ensures d.queue != [] ==> TransmitStart(d, wire, c) == TransmitStart(TakeNext(AfterAbort(d, wire)), wire, c)
  {
    assert Books(Sensed(d, wire));
    FinishBooks(Sensed(d, wire), Aborted);
    AbortMovesOn(d, wire, c);
    if d.queue != [] {
      TakeNextStartable(AfterAbort(d, wire));
    }
  }

  lemma QueuedBooks(d: Device, frame: Bytes)
    requires Books(d) && Accepts(d)
    ensures Books(Queued(d, frame))
  {
    var queued := Queued(d, frame);
    assert FramesOf(queued.finished) + InFlight(queued) + queued.queue
        == FramesOf(d.finished) + InFlight(d) + d.queue + [frame];
  }

  /** A busy wire and retries left: the device backs off with the next counter value. */
  lemma BackingOff(d: Device, wire: WireState, c: Choice)
    requires Startable(d) && PossibleChoice(d, c) && d.sendEnable && !wire.IDLE? && d.retries < d.params.maxRetries
    ensures TransmitStart(d, wire, c).Success?
    ensures AtRest(TransmitStart(d, wire, c).value.device)
    ensures Seizes(d, wire, TransmitStart(d, wire, c).value)
  {
    var next := TransmitStart(d, wire, c).value.device;
    assert next.retries == next.inherited + |next.waits|;
    assert PossibleWaits(next.params, next.inherited, next.waits);
  }

  /** An idle wire: the packet is taken or refused. */
  lemma OnIdleWire(d: Device, wire: WireState, c: Choice)
    requires Startable(d) && d.sendEnable && wire.IDLE?
    ensures TransmitStart(d, wire, c).Success?
    ensures AtRest(TransmitStart(d, wire, c).value.device)
    ensures Seizes(d, wire, TransmitStart(d, wire, c).value)
  {
    if c.accept {
      Taken(d, wire, c);
    } else {
      Refused(d, wire, c);
    }
  }

  lemma IdleSensed(d: Device, wire: WireState)
    requires Startable(d) && wire.IDLE?
    ensures BusyThenIdle(Sensed(d, wire).senses) && |Sensed(d, wire).senses| == |d.waits| + 1
  {
    assert Sensed(d, wire).senses[..|d.senses|] == d.senses;
  }

  lemma Taken(d: Device, wire: WireState, c: Choice)
    requires Startable(d) && d.sendEnable && wire.IDLE? && c.accept
    ensures TransmitStart(d, wire, c).Success?
    ensures AtRest(TransmitStart(d, wire, c).value.device)
    ensures Seizes(d, wire, TransmitStart(d, wire, c).value)
  {
    IdleSensed(d, wire);
  }

  lemma Refused(d: Device, wire: WireState, c: Choice)
    requires Startable(d) && d.sendEnable && wire.IDLE? && !c.accept
    ensures TransmitStart(d, wire, c).Success?
    ensures AtRest(TransmitStart(d, wire, c).value.device)
    ensures Seizes(d, wire, TransmitStart(d, wire, c).value)
  {
    IdleSensed(d, wire);
    FinishBooks(Sensed(d, wire), DroppedRefused);
  }

  /** No assertion in TransmitStart or, through it, TransmitAbort fails, and the device comes to rest. */
  lemma {:induction false} StartComesToRest(d: Device, wire: WireState, c: Choice)
    requires Startable(d) && PossibleChoice(d, c)
    ensures TransmitStart(d, wire, c).Success?
    ensures AtRest(TransmitStart(d, wire, c).value.device)
    ensures Seizes(d, wire, TransmitStart(d, wire, c).value)
    decreases |d.queue|
  {
    if !d.sendEnable {
      FinishBooks(d, DroppedDisabled);
    } else if wire.IDLE? {
      OnIdleWire(d, wire, c);
    } else if d.retries >= d.params.maxRetries {
      AbortStep(d, wire, c);
      if d.queue != [] {
        StartComesToRest(TakeNext(AfterAbort(d, wire)), wire, c);
      }
    } else {
      BackingOff(d, wire, c);
    }
  }

  lemma StartNextComesToRest(d: Device, wire: WireState, c: Choice)
    requires Books(d) && d.tx.READY? && d.current.None? && PossibleChoice(d, c)
    ensures StartNext(d, wire, c).Success?
    ensures AtRest(StartNext(d, wire, c).value.device)
    ensures Seizes(d, wire, StartNext(d, wire, c).value)
  {
    if d.queue != [] {
      TakeNextStartable(d);
      StartComesToRest(TakeNext(d), wire, c);
    }
  }

  lemma CompleteComesToRest(d: Device, wire: WireState)
    requires AtRest(d) && d.tx.BUSY? && wire.TRANSMITTING?
    ensures TransmitComplete(d, wire).Success?
    ensures AtRest(TransmitComplete(d, wire).value.device)
  {
    FinishBooks(d, Sent);
    assert Finish(d, Sent).(retries := 0) == Finish(d, Sent);
  }

  /** The retry counter after an attempt: 0 for a packet taken or given up, one more for a backoff, and as it was for a
      packet dropped because the send side is off or the channel refuses. */
  lemma CounterAfterAttempt(d: Device, wire: WireState, c: Choice)
    requires Startable(d)
    ensures var r := TransmitStart(d, wire, c);
            && (!d.sendEnable ==> r.Success? && r.value.device.retries == d.retries)
            && (d.sendEnable && wire.IDLE? ==>
                  r.Success? && r.value.device.retries == if c.accept then 0 else d.retries)
            && (d.sendEnable && !wire.IDLE? && d.retries < d.params.maxRetries ==>
                  r.Success? && r.value.device.retries == d.retries + 1)
            && (d.sendEnable && !wire.IDLE? && d.retries >= d.params.maxRetries && d.queue == [] ==>
                  r.Success? && r.value.device.retries == 0)
  {
    if d.sendEnable && !wire.IDLE? && d.retries >= d.params.maxRetries {
      AbortMovesOn(d, wire, c);
    }
  }

  /** A send is accepted in every state of the transmitter, if the send side is on and the queue has room, and changes
      nothing otherwise. */
  lemma AcceptedExactly(d: Device, wire: WireState, frame: Bytes, c: Choice)
    requires AtRest(d) && PossibleChoice(d, c)
    ensures SendFrame(d, wire, frame, c).Success?
    ensures var e := SendFrame(d, wire, frame, c).value;
            if d.sendEnable && |d.queue| < d.capacity then e.device.accepted == d.accepted + [frame]
            else e == Effect(d, wire, None)
  {
    SendComesToRest(d, wire, frame, c);
    if d.sendEnable && |d.queue| < d.capacity && d.tx.READY? {
      QueuedBooks(d, frame);
      StartNextComesToRest(Queued(d, frame), wire, c);
    }
  }

  lemma SendComesToRest(d: Device, wire: WireState, frame: Bytes, c: Choice)
    requires AtRest(d) && PossibleChoice(d, c)
    ensures SendFrame(d, wire, frame, c).Success?
    ensures AtRest(SendFrame(d, wire, frame, c).value.device)
    ensures d.tx.READY? && Accepts(d) ==>
              Seizes(d.(accepted := d.accepted + [frame]), wire, SendFrame(d, wire, frame, c).value)
  {
    if Accepts(d) {
      QueuedBooks(d, frame);
      if d.tx.READY? {
        StartNextComesToRest(Queued(d, frame), wire, c);
      }
    }
  }
}
