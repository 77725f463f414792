/** How long a network can go on by itself: every accepted packet pays for a bounded number of events. */
module CsmaProgress {
  import opened Wrappers
  import opened Backoffs
  import opened Frames
  import opened Transmitter
  import opened CsmaNetwork

  /** The most events one packet can still cause when it is taken from the queue. */
  function EventsPerPacket(p: Params): nat { p.maxRetries + 3 }

  /** Events the device can still cause without new packets. */
  function Load(d: Device): int {
    |d.queue| * EventsPerPacket(d.params)
    + match d.tx
      case READY => 0
      case GAP => 1
      case BUSY => 3
      case BACKOFF => if d.current.Some? then d.params.maxRetries - d.retries + 4 else 0
  }

  /** What the packets accepted so far have paid beyond what is still to come. */
  function Spent(d: Device): int {
    |d.accepted| * EventsPerPacket(d.params) - Load(d)
  }

  function TotalSpent(devices: seq<Device>): int {
    if devices == [] then 0 else TotalSpent(devices[..|devices| - 1]) + Spent(devices[|devices| - 1])
  }

  function NetSpent(s: Net): int {
    TotalSpent(s.devices) - (if s.wire.PROPAGATING? then 1 else 0)
  }

  function TotalPaid(devices: seq<Device>): int {
    if devices == [] then 0
    else
      var d := devices[|devices| - 1];
      TotalPaid(devices[..|devices| - 1]) + |d.accepted| * EventsPerPacket(d.params)
  }

  function Fired(labels: seq<Label>): nat {
    if labels == [] then 0 else (if labels[0].Fire? then 1 else 0) + Fired(labels[1..])
  }

  lemma {:induction false} TotalSpentUpdate(devices: seq<Device>, id: nat, d: Device)
    requires id < |devices|
    ensures TotalSpent(devices[id := d]) == TotalSpent(devices) - Spent(devices[id]) + Spent(d)
  {
    var last := |devices| - 1;
    if id == last {
      assert devices[id := d][..last] == devices[..last];
    } else {
      TotalSpentUpdate(devices[..last], id, d);
      assert devices[id := d][..last] == devices[..last][id := d];
    }
  }

  predicate SamePurse(a: Device, b: Device) {
    a.params == b.params && a.accepted == b.accepted
  }

  lemma LoadIsNatural(d: Device)
    requires d.retries <= d.params.maxRetries
    ensures Load(d) >= 0
  {
    assert |d.queue| * EventsPerPacket(d.params) >= 0;
  }

  lemma TakeNextLoad(d: Device)
    requires d.queue != [] && d.tx.READY?
    ensures Load(TakeNext(d)) == Load(d) - EventsPerPacket(d.params)
  {
    var w := EventsPerPacket(d.params);
    assert |d.queue[1..]| * w == (|d.queue| - 1) * w == |d.queue| * w - w;
  }

  /** Starting a packet costs no more than the packet pays; from BACKOFF the event that started it is paid too. */
  lemma {:induction false} StartLoad(d: Device, wire: WireState, c: Choice)
    requires d.retries <= d.params.maxRetries && TransmitStart(d, wire, c).Success?
    ensures SamePurse(d, TransmitStart(d, wire, c).value.device)
    ensures d.tx.READY? ==> Load(TransmitStart(d, wire, c).value.device) <= Load(d) + EventsPerPacket(d.params)
    ensures d.tx.BACKOFF? ==> Load(TransmitStart(d, wire, c).value.device) < Load(d)
    decreases |d.queue|
  {
    if d.sendEnable && !wire.IDLE? && d.retries >= d.params.maxRetries {
      AbortMovesOn(d, wire, c);
      if d.queue != [] {
        TakeNextLoad(AfterAbort(d, wire));
        StartLoad(TakeNext(AfterAbort(d, wire)), wire, c);
      }
    }
  }

  lemma {:induction false} StartNextLoad(d: Device, wire: WireState, c: Choice)
    requires d.tx.READY? && d.retries <= d.params.maxRetries && StartNext(d, wire, c).Success?
    ensures SamePurse(d, StartNext(d, wire, c).value.device)
    ensures Load(StartNext(d, wire, c).value.device) <= Load(d)
  {
    if d.queue != [] {
      TakeNextLoad(d);
      StartLoad(TakeNext(d), wire, c);
    }
  }

  lemma SendSpent(d: Device, wire: WireState, frame: Bytes, c: Choice)
    requires d.retries <= d.params.maxRetries && SendFrame(d, wire, frame, c).Success?
    ensures Spent(SendFrame(d, wire, frame, c).value.device) >= Spent(d)
  {
    if Accepts(d) {
      var w := EventsPerPacket(d.params);
      assert |Queued(d, frame).queue| * w == |d.queue| * w + w;
      assert |Queued(d, frame).accepted| * w == |d.accepted| * w + w;
      if d.tx.READY? {
        StartNextLoad(Queued(d, frame), wire, c);
      }
    }
  }

  /** Handling a timer costs one unit, two when a transmission ends and the channel will report later. */
  lemma TimerSpends(d: Device, wire: WireState, timer: Timer, c: Choice)
    requires Expected(d) == Some(timer) && d.retries <= d.params.maxRetries && OnTimer(d, wire, timer, c).Success?
    ensures Spent(OnTimer(d, wire, timer, c).value.device) >= Spent(d) + (if timer.CompleteTimer? then 2 else 1)
  {
    match timer
    case StartTimer => StartLoad(d, wire, c);
    case CompleteTimer =>
    case ReadyTimer => StartNextLoad(d.(tx := READY), wire, c);
  }

  /** What a step does to the wire's share. */
  lemma WireShare(s: Net, l: Label)
    requires Inv(s) && Enabled(s, l)
    ensures Next(s, l).Success?
    ensures var t := Next(s, l).value;
            && (t.wire.PROPAGATING? ==>
                  s.wire.PROPAGATING? || (l.Fire? && l.event.TimerEvent? && l.event.timer.CompleteTimer?))
            && (l.Fire? && l.event.PropagationComplete? ==> s.wire.PROPAGATING? && !t.wire.PROPAGATING?)
  {
    NextKeepsInv(s, l);
    if l.Send? {
      SendComesToRest(s.devices[l.id], s.wire, l.frame, l.c);
    } else if l.Fire? && l.event.TimerEvent? {
      RemoveTimer(s, l.event.id, l.event.timer);
      TimerWire(s.devices[l.event.id], s.wire, l.event.timer, l.c);
    }
  }

  lemma TimerWire(d: Device, wire: WireState, timer: Timer, c: Choice)
    requires AtRest(d) && Expected(d) == Some(timer) && PossibleChoice(d, c) && OnTimer(d, wire, timer, c).Success?
    ensures OnTimer(d, wire, timer, c).value.wire.PROPAGATING? ==> wire.PROPAGATING? || timer.CompleteTimer?
  {
    match timer
    case StartTimer => StartComesToRest(d, wire, c);
    case CompleteTimer =>
    case ReadyTimer => StartNextComesToRest(d.(tx := READY), wire, c);
  }

  /** A fired event spends at least one unit; nothing else lowers what is spent. */
  lemma NextSpends(s: Net, l: Label)
    requires Inv(s) && Enabled(s, l)
    ensures Next(s, l).Success?
    ensures NetSpent(Next(s, l).value) >= NetSpent(s) + Fired([l])
  {
    NextDevices(s, l);
    WireShare(s, l);
    match l
    case Send(id, frame, c) =>
      SendSpent(s.devices[id], s.wire, frame, c);
      TotalSpentUpdate(s.devices, id, SendFrame(s.devices[id], s.wire, frame, c).value.device);
    case SetSendEnable(id, enable) =>
      TotalSpentUpdate(s.devices, id, s.devices[id].(sendEnable := enable));
    case Fire(TimerEvent(id, timer), c) =>
      TimerSpends(s.devices[id], s.wire, timer, c);
      TotalSpentUpdate(s.devices, id, OnTimer(s.devices[id], s.wire, timer, c).value.device);
    case Fire(PropagationComplete, c) =>
  }

  /** In any run, whatever is sent and switched in between, the events fired are at most what was spent. */
  lemma {:induction false} RunSpends(s: Net, labels: seq<Label>)
    requires Inv(s) && ValidRun(s, labels)
    ensures Run(s, labels).Success?
    ensures Fired(labels) <= NetSpent(Run(s, labels).value) - NetSpent(s)
    decreases |labels|
  {
    if labels != [] {
      NextKeepsInv(s, labels[0]);
      NextSpends(s, labels[0]);
      RunSpends(Next(s, labels[0]).value, labels[1..]);
    }
  }

  lemma {:induction false} SpentWithinPaid(devices: seq<Device>)
    requires forall d :: d in devices ==> AtRest(d)
    ensures TotalSpent(devices) <= TotalPaid(devices)
  {
    if devices != [] {
      assert AtRest(devices[|devices| - 1]);
      LoadIsNatural(devices[|devices| - 1]);
      SpentWithinPaid(devices[..|devices| - 1]);
    }
  }

  lemma {:induction false} NothingSpentInitially(devices: seq<Device>)
    requires forall d :: d in devices ==> d == NewDevice(d.params, d.capacity, d.sendEnable)
    ensures TotalSpent(devices) == 0
  {
    if devices != [] {
      var d := devices[|devices| - 1];
      assert d == NewDevice(d.params, d.capacity, d.sendEnable);
      NothingSpentInitially(devices[..|devices| - 1]);
    }
  }

  /** From the start: at most maxRetries + 3 events fire per accepted packet, over all devices and all runs. */
  lemma EventsArePaidFor(s: Net, labels: seq<Label>)
    requires Initial(s) && ValidRun(s, labels)
    ensures Run(s, labels).Success?
    ensures Fired(labels) <= TotalPaid(Run(s, labels).value.devices)
  {
    InitialInv(s);
    RunSpends(s, labels);
    RunKeepsInv(s, labels);
    NothingSpentInitially(s.devices);
    var t := Run(s, labels).value;
    assert forall d :: d in t.devices ==> exists i :: 0 <= i < |t.devices| && t.devices[i] == d;
    SpentWithinPaid(t.devices);
  }

  /** Without sends a run ends within the load it starts with: the network becomes quiet. */
  lemma QuietAfterLoad(s: Net, labels: seq<Label>)
    requires Inv(s) && ValidRun(s, labels)
    requires forall l :: l in labels ==> !l.Send?
    ensures Run(s, labels).Success?
    ensures Fired(labels) + NetLoad(Run(s, labels).value) <= NetLoad(s)
    ensures 0 <= NetLoad(Run(s, labels).value)
  {
    RunSpends(s, labels);
    SameAccepted(s, labels);
    var t := Run(s, labels).value;
    RunKeepsInv(s, labels);
    LoadDifference(s.devices, t.devices);
    assert forall d :: d in t.devices ==> exists i :: 0 <= i < |t.devices| && t.devices[i] == d;
    LoadNonNegative(t.devices);
  }

  function TotalLoad(devices: seq<Device>): int {
    if devices == [] then 0 else TotalLoad(devices[..|devices| - 1]) + Load(devices[|devices| - 1])
  }

  function NetLoad(s: Net): int {
    TotalLoad(s.devices) + (if s.wire.PROPAGATING? then 1 else 0)
  }

  predicate SamePaid(a: seq<Device>, b: seq<Device>) {
    |a| == |b| && forall i :: 0 <= i < |a| ==> SamePurse(a[i], b[i])
  }

  lemma {:induction false} LoadDifference(a: seq<Device>, b: seq<Device>)
    requires SamePaid(a, b)
    ensures TotalSpent(b) - TotalSpent(a) == TotalLoad(a) - TotalLoad(b)
  {
    if a != [] {
      LoadDifference(a[..|a| - 1], b[..|b| - 1]);
    }
  }

  lemma {:induction false} LoadNonNegative(devices: seq<Device>)
    requires forall d :: d in devices ==> AtRest(d)
    ensures TotalLoad(devices) >= 0
  {
    if devices != [] {
      assert AtRest(devices[|devices| - 1]);
      LoadIsNatural(devices[|devices| - 1]);
      LoadNonNegative(devices[..|devices| - 1]);
    }
  }

  lemma {:induction false} SameAccepted(s: Net, labels: seq<Label>)
    requires Inv(s) && ValidRun(s, labels)
    requires forall l :: l in labels ==> !l.Send?
    ensures Run(s, labels).Success? && SamePaid(s.devices, Run(s, labels).value.devices)
    decreases |labels|
  {
    if labels != [] {
      NextKeepsInv(s, labels[0]);
      NextSameAccepted(s, labels[0]);
      SameAccepted(Next(s, labels[0]).value, labels[1..]);
    }
  }

  lemma NextSameAccepted(s: Net, l: Label)
    requires Inv(s) && Enabled(s, l) && !l.Send? && Next(s, l).Success?
    ensures SamePaid(s.devices, Next(s, l).value.devices)
  {
    NextDevices(s, l);
    if l.Fire? && l.event.TimerEvent? {
      var d := s.devices[l.event.id];
      match l.event.timer
      case StartTimer => StartLoad(d, s.wire, l.c);
      case CompleteTimer =>
      case ReadyTimer => StartNextLoad(d.(tx := READY), s.wire, l.c);
    }
  }

  /** Nothing pending means nothing under way: the wire is idle and every device READY or wedged. */
  lemma QuietState(s: Net)
    requires Inv(s)
    ensures s.pending == multiset{} <==>
            s.wire.IDLE? && forall i :: 0 <= i < |s.devices| ==> s.devices[i].tx.READY? || Wedged(s.devices[i])
  {
    forall i | 0 <= i < |s.devices| && Expected(s.devices[i]).Some?
      ensures s.pending != multiset{}
    {
      assert s.pending[TimerEvent(i, Expected(s.devices[i]).value)] == 1;
    }
    if s.pending != multiset{} {
      var e :| e in s.pending;
      if e.TimerEvent? {
        assert s.pending[TimerEvent(e.id, e.timer)] > 0;
      } else {
        assert s.pending[PropagationComplete] > 0;
      }
    } else {
      assert s.pending[PropagationComplete] == 0;
    }
  }
}
