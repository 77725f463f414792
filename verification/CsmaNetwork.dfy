/** Any number of CSMA devices on one channel, driven by an unordered bag of pending events.
    A run is any sequence of sends, switches of the send side and firings of pending events. */
module CsmaNetwork {
  import opened Wrappers
  import opened Backoffs
  import opened Frames
  import opened Transmitter

  datatype Event = TimerEvent(id: nat, timer: Timer) | PropagationComplete

  datatype Net = Net(devices: seq<Device>, wire: WireState, pending: multiset<Event>)

  datatype Label =
    | Send(id: nat, frame: Bytes, c: Choice)
    | SetSendEnable(id: nat, enable: bool)
    | Fire(event: Event, c: Choice)

  function Post(id: nat, posted: Option<Timer>): multiset<Event> {
    if posted.Some? then multiset{TimerEvent(id, posted.value)} else multiset{}
  }

  /** What a handler gives the channel to carry: it posts the completion timer exactly for a packet it has handed over,
      which is then the device's current one. */
  function Handed(id: nat, e: Effect): seq<(nat, Bytes)> {
    if e.posted == Some(CompleteTimer) && e.device.current.Some? then [(id, e.device.current.value)] else []
  }

  function Install(s: Net, id: nat, e: Effect): Net
    requires id < |s.devices|
  {
    Net(s.devices[id := e.device], e.wire, s.pending + Post(id, e.posted))
  }

  /** Runs the handler of a timer that has left the bag. When a transmission ends the channel posts the end
      of its own propagation. */
  function Handle(s: Net, id: nat, timer: Timer, c: Choice): Result<Net, Site>
    requires id < |s.devices|
  {
    var e :- OnTimer(s.devices[id], s.wire, timer, c);
    var posted := if timer.CompleteTimer? then multiset{PropagationComplete} else multiset{};
    Success(Install(s.(pending := s.pending + posted), id, e))
  }

  ghost predicate Enabled(s: Net, l: Label) {
    match l
    case Send(id, _, c) => id < |s.devices| && PossibleChoice(s.devices[id], c)
    case SetSendEnable(id, _) => id < |s.devices|
    case Fire(event, c) =>
      event in s.pending
      && (event.TimerEvent? ==> event.id < |s.devices| && PossibleChoice(s.devices[event.id], c))
  }

  function Next(s: Net, l: Label): Result<Net, Site>
    requires Enabled(s, l)
  {
    match l
    case Send(id, frame, c) =>
      var e :- SendFrame(s.devices[id], s.wire, frame, c);
      Success(Install(s, id, e))
    case SetSendEnable(id, enable) =>
      Success(s.(devices := s.devices[id := s.devices[id].(sendEnable := enable)]))
    case Fire(TimerEvent(id, timer), c) =>
      Handle(s.(pending := s.pending - multiset{l.event}), id, timer, c)
    case Fire(PropagationComplete, c) =>
      :- Check(s.wire.PROPAGATING?, PropagationNotUnderWay);
      Success(s.(wire := IDLE, pending := s.pending - multiset{PropagationComplete}))
  }

  ghost predicate ValidRun(s: Net, labels: seq<Label>)
    decreases |labels|
  {
    labels != [] ==>
      && Enabled(s, labels[0])
      && (Next(s, labels[0]).Success? ==> ValidRun(Next(s, labels[0]).value, labels[1..]))
  }

  function Run(s: Net, labels: seq<Label>): Result<Net, Site>
    requires ValidRun(s, labels)
    decreases |labels|
  {
    if labels == [] then Success(s)
    else
      var next :- Next(s, labels[0]);
      Run(next, labels[1..])
  }

  ghost predicate Initial(s: Net) {
    && s.wire.IDLE?
    && s.pending == multiset{}
    && forall d :: d in s.devices ==> d == NewDevice(d.params, d.capacity, d.sendEnable)
  }

  // ---------- the global invariant ----------

  /** A device has exactly the timer its state calls for, once; the channel likewise. */
  ghost predicate TimersMatch(s: Net) {
    && (forall e :: e in s.pending && e.TimerEvent? ==> e.id < |s.devices|)
    && (forall i: nat, t :: i < |s.devices| ==> s.pending[TimerEvent(i, t)] == Count(Expected(s.devices[i]), t))
    && s.pending[PropagationComplete] == (if s.wire.PROPAGATING? then 1 else 0)
  }

  function Count(expected: Option<Timer>, t: Timer): nat { if expected == Some(t) then 1 else 0 }

  /** Mutual exclusion: the wire carries a transmission exactly when one device is busy, and never two. */
  ghost predicate OneTalker(s: Net) {
    && (s.wire.TRANSMITTING? <==> exists i :: 0 <= i < |s.devices| && s.devices[i].tx.BUSY?)
    && (forall i, j | 0 <= i < |s.devices| && 0 <= j < |s.devices| ::
          s.devices[i].tx.BUSY? && s.devices[j].tx.BUSY? ==> i == j)
  }

  ghost predicate Inv(s: Net) {
    && (forall i :: 0 <= i < |s.devices| ==> AtRest(s.devices[i]))
    && TimersMatch(s)
    && OneTalker(s)
  }

  /** All but device `id`, whose timer has left the bag. */
  ghost predicate InvExcept(s: Net, id: nat) {
    && id < |s.devices|
    && (forall i :: 0 <= i < |s.devices| && i != id ==> AtRest(s.devices[i]))
    && (forall e :: e in s.pending && e.TimerEvent? ==> e.id < |s.devices|)
    && (forall i: nat, t :: i < |s.devices| ==>
          s.pending[TimerEvent(i, t)] == if i == id then 0 else Count(Expected(s.devices[i]), t))
    && s.pending[PropagationComplete] == (if s.wire.PROPAGATING? then 1 else 0)
    && OneTalker(s)
  }

  lemma InstallKeepsInv(s: Net, id: nat, before: Device, e: Effect)
    requires InvExcept(s, id) && !s.devices[id].tx.BUSY?
    requires AtRest(e.device) && Seizes(before, s.wire, e)
    ensures Inv(Install(s, id, e))
  {
    var t := Install(s, id, e);
    forall i: nat, timer | i < |t.devices|
      ensures t.pending[TimerEvent(i, timer)] == Count(Expected(t.devices[i]), timer)
    {
      assert t.pending[TimerEvent(i, timer)]
          == s.pending[TimerEvent(i, timer)] + Post(id, e.posted)[TimerEvent(i, timer)];
    }
    assert t.pending[PropagationComplete] == s.pending[PropagationComplete];
    assert forall i :: 0 <= i < |t.devices| && i != id ==> t.devices[i] == s.devices[i];
    assert e.device.tx.BUSY? ==> t.devices[id].tx.BUSY?;
  }

  lemma CompleteKeepsInv(s: Net, id: nat, c: Choice)
    requires InvExcept(s, id) && AtRest(s.devices[id]) && s.devices[id].tx.BUSY?
    ensures Handle(s, id, CompleteTimer, c).Success?
    ensures Inv(Handle(s, id, CompleteTimer, c).value)
  {
    CompleteComesToRest(s.devices[id], s.wire);
    var e := TransmitComplete(s.devices[id], s.wire).value;
    var t := Install(s.(pending := s.pending + multiset{PropagationComplete}), id, e);
    forall i: nat, timer | i < |t.devices|
      ensures t.pending[TimerEvent(i, timer)] == Count(Expected(t.devices[i]), timer)
    {
      assert t.pending[TimerEvent(i, timer)]
          == s.pending[TimerEvent(i, timer)] + Post(id, e.posted)[TimerEvent(i, timer)];
    }
    assert t.pending[PropagationComplete] == s.pending[PropagationComplete] + 1;
    assert forall i :: 0 <= i < |t.devices| && i != id ==> t.devices[i] == s.devices[i];
  }

  /** Every step keeps the invariant and fails no assertion. */
  lemma NextKeepsInv(s: Net, l: Label)
    requires Inv(s) && Enabled(s, l)
    ensures Next(s, l).Success? && Inv(Next(s, l).value)
  {
    match l
    case Send(id, frame, c) =>
      SendKeepsInv(s, id, frame, c);
    case SetSendEnable(id, enable) =>
      SwitchKeepsInv(s, id, enable);
    case Fire(TimerEvent(id, timer), c) =>
      FireKeepsInv(s, id, timer, c);
    case Fire(PropagationComplete, c) =>
      var t := Next(s, l).value;
      assert forall e :: e in t.pending ==> e in s.pending;
      assert forall i: nat, timer :: t.pending[TimerEvent(i, timer)] == s.pending[TimerEvent(i, timer)];
  }

  lemma SwitchKeepsInv(s: Net, id: nat, enable: bool)
    requires Inv(s) && id < |s.devices|
    ensures Inv(s.(devices := s.devices[id := s.devices[id].(sendEnable := enable)]))
  {
    assert AtRest(s.devices[id]);
    SameStateKeepsInv(s, id, s.devices[id].(sendEnable := enable));
  }

  /** A change of one device that leaves its state and timer as they are. */
  lemma SameStateKeepsInv(s: Net, id: nat, d: Device)
    requires Inv(s) && id < |s.devices| && AtRest(d)
    requires d.tx == s.devices[id].tx && Expected(d) == Expected(s.devices[id])
    ensures Inv(s.(devices := s.devices[id := d]))
  {
    var t := s.(devices := s.devices[id := d]);
    assert forall i :: 0 <= i < |t.devices| ==> t.devices[i].tx == s.devices[i].tx;
  }

  lemma SendKeepsInv(s: Net, id: nat, frame: Bytes, c: Choice)
    requires Inv(s) && Enabled(s, Send(id, frame, c))
    ensures Next(s, Send(id, frame, c)).Success? && Inv(Next(s, Send(id, frame, c)).value)
  {
    var d := s.devices[id];
    SendComesToRest(d, s.wire, frame, c);
    var e := SendFrame(d, s.wire, frame, c).value;
    var t := Install(s, id, e);
    if d.tx.READY? && Accepts(d) {
      assert InvExcept(s, id);
      InstallKeepsInv(s, id, d.(accepted := d.accepted + [frame]), e);
    } else {
      SameStateKeepsInv(s, id, e.device);
      assert t.pending == s.pending;
    }
  }

  lemma RemoveTimer(s: Net, id: nat, timer: Timer)
    requires Inv(s) && id < |s.devices| && TimerEvent(id, timer) in s.pending
    ensures Expected(s.devices[id]) == Some(timer)
    ensures InvExcept(s.(pending := s.pending - multiset{TimerEvent(id, timer)}), id)
  {
    var u := s.(pending := s.pending - multiset{TimerEvent(id, timer)});
    assert s.pending[TimerEvent(id, timer)] == 1;
    assert forall e :: e in u.pending ==> e in s.pending;
  }

  lemma FireStart(s: Net, id: nat, c: Choice)
    requires InvExcept(s, id) && AtRest(s.devices[id]) && Expected(s.devices[id]) == Some(StartTimer)
    requires PossibleChoice(s.devices[id], c)
    ensures Handle(s, id, StartTimer, c).Success? && Inv(Handle(s, id, StartTimer, c).value)
  {
    StartComesToRest(s.devices[id], s.wire, c);
    InstallKeepsInv(s, id, s.devices[id], TransmitStart(s.devices[id], s.wire, c).value);
    assert s.(pending := s.pending + multiset{}) == s;
  }

  lemma FireReady(s: Net, id: nat, c: Choice)
    requires InvExcept(s, id) && AtRest(s.devices[id]) && Expected(s.devices[id]) == Some(ReadyTimer)
    requires PossibleChoice(s.devices[id], c)
    ensures Handle(s, id, ReadyTimer, c).Success? && Inv(Handle(s, id, ReadyTimer, c).value)
  {
    var d := s.devices[id].(tx := READY);
    StartNextComesToRest(d, s.wire, c);
    InstallKeepsInv(s, id, d, StartNext(d, s.wire, c).value);
    assert s.(pending := s.pending + multiset{}) == s;
  }

  lemma FireKeepsInv(s: Net, id: nat, timer: Timer, c: Choice)
    requires Inv(s) && Enabled(s, Fire(TimerEvent(id, timer), c))
    ensures Next(s, Fire(TimerEvent(id, timer), c)).Success?
    ensures Inv(Next(s, Fire(TimerEvent(id, timer), c)).value)
  {
    var u := s.(pending := s.pending - multiset{TimerEvent(id, timer)});
    RemoveTimer(s, id, timer);
    match timer
    case StartTimer => FireStart(u, id, c);
    case CompleteTimer => CompleteKeepsInv(u, id, c);
    case ReadyTimer => FireReady(u, id, c);
  }

  /** What a step does to the devices: it changes at most the one it names. */
  lemma NextDevices(s: Net, l: Label)
    requires Inv(s) && Enabled(s, l)
    ensures Next(s, l).Success?
    ensures var t := Next(s, l).value;
            match l
            case Send(id, frame, c) =>
              var r := SendFrame(s.devices[id], s.wire, frame, c);
              r.Success? && t.devices == s.devices[id := r.value.device]
            case SetSendEnable(id, enable) =>
              t.devices == s.devices[id := s.devices[id].(sendEnable := enable)]
            case Fire(TimerEvent(id, timer), c) =>
              var r := OnTimer(s.devices[id], s.wire, timer, c);
              Expected(s.devices[id]) == Some(timer) && r.Success? && t.devices == s.devices[id := r.value.device]
            case Fire(PropagationComplete, c) => t.devices == s.devices
  {
    NextKeepsInv(s, l);
    if l.Fire? && l.event.TimerEvent? {
      assert s.pending[TimerEvent(l.event.id, l.event.timer)] == 1;
    }
  }

  /** Over all runs: no assertion ever fails and the invariant holds at the end. */
  lemma {:induction false} RunKeepsInv(s: Net, labels: seq<Label>)
    requires Inv(s) && ValidRun(s, labels)
    ensures Run(s, labels).Success? && Inv(Run(s, labels).value)
    decreases |labels|
  {
    if labels != [] {
      NextKeepsInv(s, labels[0]);
      RunKeepsInv(Next(s, labels[0]).value, labels[1..]);
    }
  }

  lemma InitialInv(s: Net)
    requires Initial(s)
    ensures Inv(s)
  {
    assert forall i :: 0 <= i < |s.devices| ==> s.devices[i] in s.devices;
    forall i | 0 <= i < |s.devices| ensures AtRest(s.devices[i]) && Expected(s.devices[i]) == None {
      var d := s.devices[i];
      assert d == NewDevice(d.params, d.capacity, d.sendEnable);
      assert FramesOf(d.finished) == [];
    }
  }

  /** The k-th accepted packet is the k-th to finish, and waits no longer than its retry budget allows. */
  lemma FinishesInOrder(d: Device, k: nat)
    requires AtRest(d) && k < |d.finished|
    ensures k < |d.accepted| && d.finished[k].frame == d.accepted[k]
    ensures Sum(d.finished[k].waits) <= TotalLimit(d.params, 0, d.params.maxRetries)
  {
    assert d.accepted[k] == FramesOf(d.finished)[k];
    assert d.finished[k] in d.finished;
    BudgetBoundsWaits(d.params, d.finished[k].inherited, d.finished[k].waits);
  }

  /** Backoffs within the retry budget add up to at most the limits of all retries. */
  lemma BudgetBoundsWaits(p: Params, inherited: nat, waits: seq<nat>)
    requires WithinBudget(p, inherited, waits)
    ensures Sum(waits) <= TotalLimit(p, 0, p.maxRetries)
  {
    var reached := inherited + |waits|;
    WaitsBounded(p, inherited, waits);
    TotalLimitSplits(p, 0, inherited, reached);
    TotalLimitSplits(p, 0, reached, p.maxRetries);
  }

  /** An aborted packet found the wire busy at every attempt, and together with what its predecessor left on the
      counter the attempts are exactly maxRetries + 1. */
  lemma AbortBudget(d: Device, k: nat)
    requires AtRest(d) && k < |d.finished| && d.finished[k].fate.Aborted?
    ensures LastLeftover(d.finished[..k]) + |d.finished[k].senses| == d.params.maxRetries + 1
    ensures AllBusy(d.finished[k].senses)
  {
    InheritsAt(d.finished, k);
    assert RecordOk(d.params, d.finished[k]);
  }

  lemma {:induction false} InheritsAt(records: seq<Record>, k: nat)
    requires Inherits(records) && k < |records|
    ensures records[k].inherited == LastLeftover(records[..k])
  {
    var last := |records| - 1;
    if k < last {
      InheritsAt(records[..last], k);
      assert records[..last][..k] == records[..k];
    }
  }

  /** In every state any run reaches: no assertion has failed, the wire is shared one at a time, every device
      has exactly its timer, finished packets are the accepted ones in order, and none waited too long. */
  lemma Safety(s: Net, labels: seq<Label>)
    requires Initial(s) && ValidRun(s, labels)
    ensures Run(s, labels).Success?
    ensures var t := Run(s, labels).value;
            && OneTalker(t)
            && TimersMatch(t)
            && forall i, k :: 0 <= i < |t.devices| && 0 <= k < |t.devices[i].finished| ==>
                 var d := t.devices[i];
                 && k < |d.accepted|
                 && d.finished[k].frame == d.accepted[k]
                 && Sum(d.finished[k].waits) <= TotalLimit(d.params, 0, d.params.maxRetries)
  {
    InitialInv(s);
    RunKeepsInv(s, labels);
    var t := Run(s, labels).value;
    forall i, k | 0 <= i < |t.devices| && 0 <= k < |t.devices[i].finished|
      ensures k < |t.devices[i].accepted| && t.devices[i].finished[k].frame == t.devices[i].accepted[k]
      ensures Sum(t.devices[i].finished[k].waits)
           <= TotalLimit(t.devices[i].params, 0, t.devices[i].params.maxRetries)
    {
      FinishesInOrder(t.devices[i], k);
    }
  }
}
