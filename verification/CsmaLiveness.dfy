/** When a device keeps working: what an always enabled sender on a never refusing channel guarantees,
    and what exactly goes wrong otherwise. */
module CsmaLiveness {
  import opened Wrappers
  import opened Backoffs
  import opened Frames
  import opened Transmitter
  import opened CsmaNetwork
  import opened CsmaProgress

  /** Idle with work to do. */
  predicate Stranded(d: Device) {
    d.tx.READY? && d.queue != []
  }

  /** Never idle with work to do, never stuck. */
  predicate WorkConserving(d: Device) {
    !Stranded(d) && !Wedged(d)
  }

  lemma {:induction false} StartWedges(d: Device, wire: WireState, c: Choice)
    requires Startable(d) && PossibleChoice(d, c)
    ensures TransmitStart(d, wire, c).Success?
    ensures Wedged(TransmitStart(d, wire, c).value.device) <==> !d.sendEnable && d.tx.BACKOFF?
    decreases |d.queue|
  {
    if d.sendEnable && !wire.IDLE? && d.retries >= d.params.maxRetries {
      AbortStep(d, wire, c);
      if d.queue != [] {
        StartWedges(TakeNext(AfterAbort(d, wire)), wire, c);
      }
    }
  }

  lemma {:induction false} StartStrands(d: Device, wire: WireState, c: Choice)
    requires Startable(d) && PossibleChoice(d, c)
    ensures TransmitStart(d, wire, c).Success?
    ensures Stranded(TransmitStart(d, wire, c).value.device) <==>
              d.queue != [] && if d.sendEnable then wire.IDLE? && !c.accept else d.tx.READY?
    decreases |d.queue|
  {
    if d.sendEnable && !wire.IDLE? && d.retries >= d.params.maxRetries {
      AbortStep(d, wire, c);
      if d.queue != [] {
        StartStrands(TakeNext(AfterAbort(d, wire)), wire, c);
      }
    }
  }

  /** Work conservation of one attempt, exactly: the send side is on (or the device was READY and nothing
      waits), and an idle channel takes the packet (or nothing waits). */
  lemma StartConservesWork(d: Device, wire: WireState, c: Choice)
    requires Startable(d) && PossibleChoice(d, c) && TransmitStart(d, wire, c).Success?
    ensures WorkConserving(TransmitStart(d, wire, c).value.device) <==>
            && (!d.sendEnable ==> d.tx.READY? && d.queue == [])
            && (d.sendEnable && wire.IDLE? && !c.accept ==> d.queue == [])
  {
    StartStrands(d, wire, c);
    StartWedges(d, wire, c);
  }

  /** With no retries allowed one attempt on a busy wire aborts the packet and every queued one. */
  lemma {:induction false} NoRetriesDrainsQueue(d: Device, wire: WireState, c: Choice)
    requires Startable(d) && PossibleChoice(d, c) && d.sendEnable && !wire.IDLE? && d.params.maxRetries == 0
    ensures TransmitStart(d, wire, c).Success?
    ensures var e := TransmitStart(d, wire, c).value;
            && e.device.tx.READY? && e.device.queue == [] && e.posted == None && e.wire == wire
            && |e.device.finished| == |d.finished| + 1 + |d.queue|
            && forall k :: |d.finished| <= k < |e.device.finished| ==> e.device.finished[k].fate.Aborted?
    decreases |d.queue|
  {
    AbortStep(d, wire, c);
    if d.queue != [] {
      NoRetriesDrainsQueue(TakeNext(AfterAbort(d, wire)), wire, c);
      HistoryGrows(TakeNext(AfterAbort(d, wire)), wire, c);
    }
  }

  /** Finished packets stay finished as they were. */
  lemma {:induction false} HistoryGrows(d: Device, wire: WireState, c: Choice)
    requires d.current.Some? && (d.tx.READY? || d.tx.BACKOFF?)
    ensures TransmitStart(d, wire, c).Success?
    ensures d.finished <= TransmitStart(d, wire, c).value.device.finished
    decreases |d.queue|
  {
    if d.sendEnable && !wire.IDLE? && d.retries >= d.params.maxRetries {
      AbortMovesOn(d, wire, c);
      if d.queue != [] {
        HistoryGrows(TakeNext(AfterAbort(d, wire)), wire, c);
      }
    }
  }

  // ---------- runs that keep the send side on and whose idle channel never refuses ----------

  ghost predicate Cooperative(l: Label) {
    match l
    case Send(_, _, c) => c.accept
    case SetSendEnable(_, enable) => enable
    case Fire(_, c) => c.accept
  }

  /** A packet's record when nothing was refused or disabled: sent by the first attempt that found the wire idle,
      after at most maxRetries that did not, or aborted after maxRetries + 1 attempts that all found it busy. */
  predicate FairRecord(p: Params, r: Record) {
    var attempts := |r.senses|;
    r.inherited == 0
    && match r.fate
       case Sent => BusyThenIdle(r.senses) && attempts <= p.maxRetries + 1
       case Aborted => AllBusy(r.senses) && attempts == p.maxRetries + 1
       case _ => false
  }

  ghost predicate FairBooks(d: Device) {
    d.sendEnable && (forall r :: r in d.finished ==> FairRecord(d.params, r))
  }

  ghost predicate Thriving(d: Device) {
    && FairBooks(d)
    && WorkConserving(d)
    && (!d.tx.BACKOFF? ==> d.retries == 0)
    && (d.current.Some? ==> d.inherited == 0)
    && (d.tx.BUSY? ==> d.current.Some? && FairRecord(d.params, RecordOf(d, Sent)))
    && (d.tx.BACKOFF? ==> Attempted(d))
  }

  /** A packet whose attempts so far all found the wire busy. */
  predicate Attempted(d: Device) {
    d.current.Some? && d.retries == |d.senses| && AllBusy(d.senses) && d.retries <= d.params.maxRetries
  }

  ghost predicate AllThrive(s: Net) {
    forall i :: 0 <= i < |s.devices| ==> Thriving(s.devices[i])
  }

  /** An attempt that finds the wire idle, or busy with retries left. */
  lemma OneAttemptThrives(d: Device, wire: WireState, c: Choice)
    requires Attempted(d) && (d.tx.READY? || d.tx.BACKOFF?)
    requires c.accept && FairBooks(d) && d.inherited == 0 && (wire.IDLE? || d.retries < d.params.maxRetries)
    ensures TransmitStart(d, wire, c).Success?
    ensures Thriving(TransmitStart(d, wire, c).value.device)
  {
    assert Sensed(d, wire).senses[..|d.senses|] == d.senses;
  }

  lemma {:induction false} StartThrives(d: Device, wire: WireState, c: Choice)
    requires Attempted(d) && (d.tx.READY? || d.tx.BACKOFF?)
    requires c.accept && FairBooks(d) && d.inherited == 0
    ensures TransmitStart(d, wire, c).Success?
    ensures Thriving(TransmitStart(d, wire, c).value.device)
    decreases |d.queue|
  {
    if wire.IDLE? || d.retries < d.params.maxRetries {
      OneAttemptThrives(d, wire, c);
    } else {
      AbortMovesOn(d, wire, c);
      if d.queue != [] {
        StartThrives(TakeNext(AfterAbort(d, wire)), wire, c);
      }
    }
  }

  lemma StartNextThrives(d: Device, wire: WireState, c: Choice)
    requires d.tx.READY? && d.current.None? && c.accept && FairBooks(d) && d.retries == 0
    ensures StartNext(d, wire, c).Success?
    ensures Thriving(StartNext(d, wire, c).value.device)
  {
    if d.queue != [] {
      StartThrives(TakeNext(d), wire, c);
    }
  }

  lemma SendThrives(d: Device, wire: WireState, frame: Bytes, c: Choice)
    requires AtRest(d) && Thriving(d) && PossibleChoice(d, c) && c.accept
    ensures SendFrame(d, wire, frame, c).Success?
    ensures Thriving(SendFrame(d, wire, frame, c).value.device)
  {
    if Accepts(d) && d.tx.READY? {
      QueuedBooks(d, frame);
      StartNextThrives(Queued(d, frame), wire, c);
    }
  }

  lemma TimerThrives(d: Device, wire: WireState, timer: Timer, c: Choice)
    requires AtRest(d) && Thriving(d) && Expected(d) == Some(timer) && PossibleChoice(d, c) && c.accept
    requires OnTimer(d, wire, timer, c).Success?
    ensures Thriving(OnTimer(d, wire, timer, c).value.device)
  {
    match timer
    case StartTimer => StartThrives(d, wire, c);
    case CompleteTimer =>
    case ReadyTimer => StartNextThrives(d.(tx := READY), wire, c);
  }

  lemma NextThrives(s: Net, l: Label)
    requires Inv(s) && AllThrive(s) && Enabled(s, l) && Cooperative(l)
    ensures Next(s, l).Success? && AllThrive(Next(s, l).value)
  {
    NextDevices(s, l);
    match l
    case Send(id, frame, c) => SendThrives(s.devices[id], s.wire, frame, c);
    case SetSendEnable(id, enable) => assert Thriving(s.devices[id].(sendEnable := enable));
    case Fire(TimerEvent(id, timer), c) => TimerThrives(s.devices[id], s.wire, timer, c);
    case Fire(PropagationComplete, c) =>
  }

  /** In every reachable state of a network that is switched on and cooperative from the start: a READY device has
      an empty queue, no device is wedged, the retry counter is 0 outside BACKOFF, and every finished packet was sent
      by the first attempt that found the wire idle, or aborted after exactly maxRetries + 1 attempts, all of which
      found it busy. */
  lemma CooperativeNetworksThrive(s: Net, labels: seq<Label>)
    requires Initial(s) && (forall d :: d in s.devices ==> d.sendEnable) && ValidRun(s, labels)
    requires forall l :: l in labels ==> Cooperative(l)
    ensures Run(s, labels).Success? && AllThrive(Run(s, labels).value)
  {
    InitialInv(s);
    NewDevicesThrive(s);
    CooperativeRunsThrive(s, labels);
  }

  lemma NewDevicesThrive(s: Net)
    requires Initial(s) && forall d :: d in s.devices ==> d.sendEnable
    ensures AllThrive(s)
  {
    assert forall i :: 0 <= i < |s.devices| ==> s.devices[i] in s.devices;
  }

  lemma {:induction false} CooperativeRunsThrive(s: Net, labels: seq<Label>)
    requires Inv(s) && AllThrive(s) && ValidRun(s, labels)
    requires forall l :: l in labels ==> Cooperative(l)
    ensures Run(s, labels).Success? && AllThrive(Run(s, labels).value)
    decreases |labels|
  {
    if labels != [] {
      NextKeepsInv(s, labels[0]);
      NextThrives(s, labels[0]);
      CooperativeRunsThrive(Next(s, labels[0]).value, labels[1..]);
    }
  }

  /** Once such a network is quiet, every packet it accepted has been sent or aborted, and none is left. */
  lemma QuietHasFinished(s: Net)
    requires Inv(s) && AllThrive(s) && s.pending == multiset{}
    ensures forall i :: 0 <= i < |s.devices| ==>
              var d := s.devices[i];
              && FramesOf(d.finished) == d.accepted
              && forall r :: r in d.finished ==> r.fate.Sent? || r.fate.Aborted?
  {
    QuietState(s);
    forall i | 0 <= i < |s.devices| ensures FramesOf(s.devices[i].finished) == s.devices[i].accepted {
      var d := s.devices[i];
      assert AtRest(d) && Thriving(d) && d.tx.READY?;
      assert FramesOf(d.finished) + InFlight(d) + d.queue == FramesOf(d.finished);
    }
  }

  /** From the start, and whatever was sent on the way: a cooperative run that has come to rest, as CsmaProgress says it
      does when the sends stop, has sent or aborted exactly the packets accepted, in order. */
  lemma CooperativeRunsFinish(s: Net, labels: seq<Label>)
    requires Initial(s) && (forall d :: d in s.devices ==> d.sendEnable) && ValidRun(s, labels)
    requires forall l :: l in labels ==> Cooperative(l)
    ensures Run(s, labels).Success?
    ensures Run(s, labels).value.pending == multiset{} ==>
              forall i :: 0 <= i < |Run(s, labels).value.devices| ==>
                var d := Run(s, labels).value.devices[i];
                && FramesOf(d.finished) == d.accepted
                && forall r :: r in d.finished ==> r.fate.Sent? || r.fate.Aborted?
  {
    CooperativeNetworksThrive(s, labels);
    InitialInv(s);
    RunKeepsInv(s, labels);
    if Run(s, labels).value.pending == multiset{} {
      QuietHasFinished(Run(s, labels).value);
    }
  }

  // ---------- what happens otherwise ----------

  lemma SendWedges(d: Device, wire: WireState, frame: Bytes, c: Choice)
    requires AtRest(d) && PossibleChoice(d, c)
    ensures SendFrame(d, wire, frame, c).Success?
    ensures Wedged(SendFrame(d, wire, frame, c).value.device) <==> Wedged(d)
  {
    SendComesToRest(d, wire, frame, c);
    if Accepts(d) && d.tx.READY? {
      QueuedBooks(d, frame);
      ReadyNeverWedges(Queued(d, frame), wire, c);
    }
  }

  /** Starting the next packet from READY. */
  lemma ReadyNeverWedges(d: Device, wire: WireState, c: Choice)
    requires Books(d) && d.tx.READY? && d.current.None? && PossibleChoice(d, c)
    ensures StartNext(d, wire, c).Success? && !Wedged(StartNext(d, wire, c).value.device)
  {
    if d.queue != [] {
      TakeNextStartable(d);
      StartWedges(TakeNext(d), wire, c);
    }
  }

  lemma TimerWedges(d: Device, wire: WireState, timer: Timer, c: Choice)
    requires AtRest(d) && Expected(d) == Some(timer) && PossibleChoice(d, c) && OnTimer(d, wire, timer, c).Success?
    ensures Wedged(OnTimer(d, wire, timer, c).value.device) <==> timer.StartTimer? && !d.sendEnable
  {
    match timer
    case StartTimer => StartWedges(d, wire, c);
    case CompleteTimer =>
    case ReadyTimer => ReadyNeverWedges(d.(tx := READY), wire, c);
  }

  /** A step leaves a device wedged if and only if it was wedged before, or its backoff timer fired while its
      send side was off. */
  lemma WedgedExactly(s: Net, l: Label, i: nat)
    requires Inv(s) && Enabled(s, l) && i < |s.devices|
    ensures Next(s, l).Success? && |Next(s, l).value.devices| == |s.devices|
    ensures Wedged(Next(s, l).value.devices[i]) <==>
            || Wedged(s.devices[i])
            || (l.Fire? && l.event == TimerEvent(i, StartTimer) && !s.devices[i].sendEnable)
  {
    NextDevices(s, l);
    match l
    case Send(id, frame, c) => SendWedges(s.devices[id], s.wire, frame, c);
    case SetSendEnable(id, enable) =>
    case Fire(TimerEvent(id, timer), c) => TimerWedges(s.devices[id], s.wire, timer, c);
    case Fire(PropagationComplete, c) =>
  }

  /** A step of the network leaves the packets of a wedged device alone, but for queueing more. */
  lemma WedgedStaysPut(s: Net, l: Label, i: nat)
    requires Inv(s) && Enabled(s, l) && i < |s.devices| && Wedged(s.devices[i])
    ensures Next(s, l).Success? && |Next(s, l).value.devices| == |s.devices|
    ensures Wedged(Next(s, l).value.devices[i])
    ensures Next(s, l).value.devices[i].finished == s.devices[i].finished
    ensures s.devices[i].queue <= Next(s, l).value.devices[i].queue
  {
    NextDevices(s, l);
    WedgedExactly(s, l, i);
  }

  /** A wedged device never finishes another packet, whatever happens, even if its send side is switched on
      again: it only fills its queue. */
  lemma {:induction false} WedgedForever(s: Net, labels: seq<Label>, i: nat)
    requires Inv(s) && ValidRun(s, labels) && i < |s.devices| && Wedged(s.devices[i])
    ensures Run(s, labels).Success? && i < |Run(s, labels).value.devices|
    ensures Wedged(Run(s, labels).value.devices[i])
    ensures Run(s, labels).value.devices[i].finished == s.devices[i].finished
    ensures s.devices[i].queue <= Run(s, labels).value.devices[i].queue
    decreases |labels|
  {
    if labels != [] {
      NextKeepsInv(s, labels[0]);
      WedgedStaysPut(s, labels[0], i);
      WedgedForever(Next(s, labels[0]).value, labels[1..], i);
    }
  }

  /** An attempt now would be dropped: the send side is off, or the wire idle and the channel refusing. */
  predicate Thwarted(d: Device, wire: WireState, c: Choice) {
    !d.sendEnable || (wire.IDLE? && !c.accept)
  }

  lemma SendStrands(d: Device, wire: WireState, frame: Bytes, c: Choice)
    requires AtRest(d) && PossibleChoice(d, c)
    ensures SendFrame(d, wire, frame, c).Success?
    ensures Stranded(SendFrame(d, wire, frame, c).value.device) <==>
              Stranded(d) && (!Accepts(d) || Thwarted(d, wire, c))
  {
    SendComesToRest(d, wire, frame, c);
    if Accepts(d) && d.tx.READY? {
      QueuedBooks(d, frame);
      TakeNextStartable(Queued(d, frame));
      StartStrands(TakeNext(Queued(d, frame)), wire, c);
    }
  }

  lemma TimerStrands(d: Device, wire: WireState, timer: Timer, c: Choice)
    requires AtRest(d) && Expected(d) == Some(timer) && PossibleChoice(d, c) && OnTimer(d, wire, timer, c).Success?
    ensures Stranded(OnTimer(d, wire, timer, c).value.device) <==> StrandsOnTimer(d, wire, timer, c)
  {
    match timer
    case StartTimer => StartStrands(d, wire, c);
    case CompleteTimer =>
    case ReadyTimer =>
      if d.queue != [] {
        TakeNextStartable(d.(tx := READY));
        StartStrands(TakeNext(d.(tx := READY)), wire, c);
      }
  }

  /** Whether a timer leaves the device stranded: its attempt is thwarted and more packets wait behind. */
  predicate StrandsOnTimer(d: Device, wire: WireState, timer: Timer, c: Choice) {
    match timer
    case StartTimer => d.sendEnable && Thwarted(d, wire, c) && d.queue != []
    case CompleteTimer => false
    case ReadyTimer => Thwarted(d, wire, c) && |d.queue| > 1
  }

  /** A step leaves a device stranded if and only if its own timer strands it, or it was stranded and the step is
      not a send of its own that is accepted and not thwarted. */
  lemma StrandedExactly(s: Net, l: Label, i: nat)
    requires Inv(s) && Enabled(s, l) && i < |s.devices|
    ensures Next(s, l).Success? && |Next(s, l).value.devices| == |s.devices|
    ensures Stranded(Next(s, l).value.devices[i]) <==>
            var d := s.devices[i];
            if l.Fire? && l.event.TimerEvent? && l.event.id == i then StrandsOnTimer(d, s.wire, l.event.timer, l.c)
            else Stranded(d) && !(l.Send? && l.id == i && Accepts(d) && !Thwarted(d, s.wire, l.c))
  {
    NextDevices(s, l);
    match l
    case Send(id, frame, c) => SendStrands(s.devices[id], s.wire, frame, c);
    case SetSendEnable(id, enable) =>
    case Fire(TimerEvent(id, timer), c) => TimerStrands(s.devices[id], s.wire, timer, c);
    case Fire(PropagationComplete, c) =>
  }

  /** A stranded device with a full queue is never freed: sends of its own are refused, and nothing else helps. */
  lemma {:induction false} StrandedFullForever(s: Net, labels: seq<Label>, i: nat)
    requires Inv(s) && ValidRun(s, labels) && i < |s.devices|
    requires Stranded(s.devices[i]) && |s.devices[i].queue| == s.devices[i].capacity
    ensures Run(s, labels).Success? && i < |Run(s, labels).value.devices|
    ensures var d := Run(s, labels).value.devices[i];
            && Stranded(d) && d.queue == s.devices[i].queue
            && d.finished == s.devices[i].finished && d.accepted == s.devices[i].accepted
    decreases |labels|
  {
    if labels != [] {
      NextKeepsInv(s, labels[0]);
      StrandedFullStays(s, labels[0], i);
      StrandedFullForever(Next(s, labels[0]).value, labels[1..], i);
    }
  }

  lemma StrandedFullStays(s: Net, l: Label, i: nat)
    requires Inv(s) && Enabled(s, l) && i < |s.devices|
    requires Stranded(s.devices[i]) && |s.devices[i].queue| == s.devices[i].capacity
    ensures Next(s, l).Success? && |Next(s, l).value.devices| == |s.devices|
    ensures Next(s, l).value.devices[i] == s.devices[i].(sendEnable := Next(s, l).value.devices[i].sendEnable)
  {
    NextDevices(s, l);
  }

  /** Only a later send of its own can free a stranded device: until then it finishes nothing and its queue stands. */
  lemma {:induction false} StrandedUntilSend(s: Net, labels: seq<Label>, i: nat)
    requires Inv(s) && ValidRun(s, labels) && i < |s.devices| && Stranded(s.devices[i])
    requires forall l :: l in labels && l.Send? ==> l.id != i
    ensures Run(s, labels).Success? && i < |Run(s, labels).value.devices|
    ensures Stranded(Run(s, labels).value.devices[i])
    ensures Run(s, labels).value.devices[i].finished == s.devices[i].finished
    ensures Run(s, labels).value.devices[i].queue == s.devices[i].queue
    decreases |labels|
  {
    if labels != [] {
      assert labels[0] in labels;
      NextKeepsInv(s, labels[0]);
      NextDevices(s, labels[0]);
      StrandedUntilSend(Next(s, labels[0]).value, labels[1..], i);
    }
  }

  /** The counter the parametrised Backoff constructor leaves unset decides the first packet's fate: sensed busy, it
      backs off if and only if the value found in memory is below maxRetries, and is aborted on the spot otherwise. */
  lemma UnsetCounterDecides(p: Params, capacity: nat, leftInMemory: uint32, wire: WireState, frame: Bytes, c: Choice)
    requires capacity > 0 && !wire.IDLE?
    ensures var d := NewDevice(p, capacity, true).(retries := leftInMemory);
            SendFrame(d, wire, frame, c).Success?
            && var e := SendFrame(d, wire, frame, c).value;
               if leftInMemory < p.maxRetries then e.posted == Some(StartTimer) && e.device.finished == []
               else e.posted == None && e.device.finished == [Record(frame, Aborted, leftInMemory, [], [wire])]
  {
    var d := NewDevice(p, capacity, true).(retries := leftInMemory);
    var next := TakeNext(Queued(d, frame));
    assert Queued(d, frame).queue == [frame];
    assert SendFrame(d, wire, frame, c) == TransmitStart(next, wire, c);
    if leftInMemory >= p.maxRetries {
      AbortMovesOn(next, wire, c);
      assert next.queue == [];
      assert Sensed(next, wire).senses == [wire];
      assert RecordOf(Sensed(next, wire), Aborted) == Record(frame, Aborted, leftInMemory, [], [wire]);
    }
  }
}
