/** What the channel is given to carry: for every device exactly its sent packets, in order, and the one it is
    sending. */
module CsmaWire {
  import opened Wrappers
  import opened Backoffs
  import opened Frames
  import opened Transmitter
  import opened CsmaNetwork

  /** The frames of the packets that were sent. */
  function SentFrames(records: seq<Record>): seq<Bytes> {
    if records == [] then []
    else
      var last := records[|records| - 1];
      SentFrames(records[..|records| - 1]) + if last.fate.Sent? then [last.frame] else []
  }

  /** Those, and the packet being sent. */
  function OnWire(d: Device): seq<Bytes> {
    SentFrames(d.finished) + if d.tx.BUSY? then InFlight(d) else []
  }

  /** The frames device `id` was heard to start. */
  function CarriedFor(carried: seq<(nat, Bytes)>, id: nat): seq<Bytes> {
    if carried == [] then []
    else
      var last := carried[|carried| - 1];
      CarriedFor(carried[..|carried| - 1], id) + if last.0 == id then [last.1] else []
  }

  /** What a step gives the channel. */
  function StepCarries(s: Net, l: Label): seq<(nat, Bytes)>
    requires Enabled(s, l)
  {
    match l
    case Send(id, frame, c) =>
      var r := SendFrame(s.devices[id], s.wire, frame, c);
      if r.Success? then Handed(id, r.value) else []
    case SetSendEnable(id, enable) => []
    case Fire(TimerEvent(id, timer), c) =>
      var r := OnTimer(s.devices[id], s.wire, timer, c);
      if r.Success? then Handed(id, r.value) else []
    case Fire(PropagationComplete, c) => []
  }

  /** And a run. */
  function RunCarries(s: Net, labels: seq<Label>): seq<(nat, Bytes)>
    requires ValidRun(s, labels)
    decreases |labels|
  {
    if labels == [] || Next(s, labels[0]).Failure? then []
    else StepCarries(s, labels[0]) + RunCarries(Next(s, labels[0]).value, labels[1..])
  }

  lemma {:induction false} CarriedForConcat(a: seq<(nat, Bytes)>, b: seq<(nat, Bytes)>, id: nat)
    ensures CarriedFor(a + b, id) == CarriedFor(a, id) + CarriedFor(b, id)
    decreases |b|
  {
    if b == [] {
      assert a + b == a;
    } else {
      var front := b[..|b| - 1];
      assert (a + b)[..|a + b| - 1] == a + front;
      CarriedForConcat(a, front, id);
    }
  }

  /** The one frame an effect hands over, if any. */
  function HandedFrame(e: Effect): seq<Bytes> {
    if e.posted == Some(CompleteTimer) then InFlight(e.device) else []
  }

  lemma HandedFor(id: nat, e: Effect, i: nat)
    ensures CarriedFor(Handed(id, e), i) == if i == id then HandedFrame(e) else []
  {
    if Handed(id, e) != [] {
      assert Handed(id, e)[..0] == [];
    }
  }

  lemma FinishedSends(d: Device, fate: Fate)
    requires d.current.Some?
    ensures SentFrames(Finish(d, fate).finished) == SentFrames(d.finished) + if fate.Sent? then InFlight(d) else []
  {
    assert Finish(d, fate).finished[..|d.finished|] == d.finished;
  }

  lemma OneAttemptCarries(d: Device, wire: WireState, c: Choice)
    requires d.current.Some? && (d.tx.READY? || d.tx.BACKOFF?) && (!d.sendEnable || wire.IDLE?)
    ensures TransmitStart(d, wire, c).Success?
    ensures var e := TransmitStart(d, wire, c).value; OnWire(e.device) == OnWire(d) + HandedFrame(e)
  {
    if !d.sendEnable {
      FinishedSends(d, DroppedDisabled);
    } else {
      IdleWireCarries(d, wire, c);
    }
  }

  lemma IdleWireCarries(d: Device, wire: WireState, c: Choice)
    requires d.current.Some? && (d.tx.READY? || d.tx.BACKOFF?) && d.sendEnable && wire.IDLE?
    ensures TransmitStart(d, wire, c).Success?
    ensures var e := TransmitStart(d, wire, c).value; OnWire(e.device) == OnWire(d) + HandedFrame(e)
  {
    FinishedSends(Sensed(d, wire), DroppedRefused);
  }

  lemma BackingOffCarries(d: Device, wire: WireState, c: Choice)
    requires d.current.Some? && (d.tx.READY? || d.tx.BACKOFF?) && d.sendEnable && !wire.IDLE?
    requires d.retries < d.params.maxRetries
    ensures TransmitStart(d, wire, c).Success?
    ensures var e := TransmitStart(d, wire, c).value; OnWire(e.device) == OnWire(d) + HandedFrame(e)
  {
  }

  lemma {:induction false} StartCarries(d: Device, wire: WireState, c: Choice)
    requires d.current.Some? && (d.tx.READY? || d.tx.BACKOFF?)
    ensures TransmitStart(d, wire, c).Success?
    ensures var e := TransmitStart(d, wire, c).value; OnWire(e.device) == OnWire(d) + HandedFrame(e)
    decreases |d.queue|
  {
    if !d.sendEnable || wire.IDLE? {
      OneAttemptCarries(d, wire, c);
    } else if d.retries >= d.params.maxRetries {
      AbortMovesOn(d, wire, c);
      FinishedSends(Sensed(d, wire), Aborted);
      if d.queue != [] {
        StartCarries(TakeNext(AfterAbort(d, wire)), wire, c);
      }
    } else {
      BackingOffCarries(d, wire, c);
    }
  }

  lemma StartNextCarries(d: Device, wire: WireState, c: Choice)
    requires d.tx.READY? && d.current.None?
    ensures StartNext(d, wire, c).Success?
    ensures var e := StartNext(d, wire, c).value; OnWire(e.device) == OnWire(d) + HandedFrame(e)
  {
    if d.queue != [] {
      StartCarries(TakeNext(d), wire, c);
    }
  }

  lemma SendCarries(d: Device, wire: WireState, frame: Bytes, c: Choice)
    requires AtRest(d)
    ensures SendFrame(d, wire, frame, c).Success?
    ensures var e := SendFrame(d, wire, frame, c).value; OnWire(e.device) == OnWire(d) + HandedFrame(e)
  {
    if Accepts(d) && d.tx.READY? {
      StartNextCarries(Queued(d, frame), wire, c);
    }
  }

  lemma TimerCarries(d: Device, wire: WireState, timer: Timer, c: Choice)
    requires AtRest(d) && Expected(d) == Some(timer) && OnTimer(d, wire, timer, c).Success?
    ensures var e := OnTimer(d, wire, timer, c).value; OnWire(e.device) == OnWire(d) + HandedFrame(e)
  {
    match timer
    case StartTimer => StartCarries(d, wire, c);
    case CompleteTimer => FinishedSends(d, Sent);
    case ReadyTimer => StartNextCarries(d.(tx := READY), wire, c);
  }

  lemma NextCarries(s: Net, l: Label, i: nat)
    requires Inv(s) && Enabled(s, l) && i < |s.devices|
    ensures Next(s, l).Success? && |Next(s, l).value.devices| == |s.devices|
    ensures OnWire(Next(s, l).value.devices[i]) == OnWire(s.devices[i]) + CarriedFor(StepCarries(s, l), i)
  {
    NextDevices(s, l);
    match l
    case Send(id, frame, c) =>
      SendCarries(s.devices[id], s.wire, frame, c);
      HandedFor(id, SendFrame(s.devices[id], s.wire, frame, c).value, i);
    case SetSendEnable(id, enable) =>
    case Fire(TimerEvent(id, timer), c) =>
      TimerCarries(s.devices[id], s.wire, timer, c);
      HandedFor(id, OnTimer(s.devices[id], s.wire, timer, c).value, i);
    case Fire(PropagationComplete, c) =>
  }

  lemma {:induction false} RunCarriesOn(s: Net, labels: seq<Label>, i: nat)
    requires Inv(s) && ValidRun(s, labels) && i < |s.devices|
    ensures Run(s, labels).Success? && |Run(s, labels).value.devices| == |s.devices|
    ensures OnWire(Run(s, labels).value.devices[i]) == OnWire(s.devices[i]) + CarriedFor(RunCarries(s, labels), i)
    decreases |labels|
  {
    if labels != [] {
      NextKeepsInv(s, labels[0]);
      NextCarries(s, labels[0], i);
      var next := Next(s, labels[0]).value;
      RunCarriesOn(next, labels[1..], i);
      var now, later := StepCarries(s, labels[0]), RunCarries(next, labels[1..]);
      CarriedForConcat(now, later, i);
      Joined(OnWire(s.devices[i]), CarriedFor(now, i), CarriedFor(later, i));
    } else {
      assert OnWire(s.devices[i]) + [] == OnWire(s.devices[i]);
    }
  }

  lemma Joined(a: seq<Bytes>, b: seq<Bytes>, c: seq<Bytes>)
    ensures a + b + c == a + (b + c)
  {
  }

  /** In every state any run reaches the channel has been given, of each device, exactly its sent packets in order and
      then the one it is sending now. */
  lemma WireCarriesSent(s: Net, labels: seq<Label>, i: nat)
    requires Initial(s) && ValidRun(s, labels) && i < |s.devices|
    ensures Run(s, labels).Success? && |Run(s, labels).value.devices| == |s.devices|
    ensures var d := Run(s, labels).value.devices[i];
            && (d.tx.BUSY? ==> d.current.Some?)
            && CarriedFor(RunCarries(s, labels), i)
                 == SentFrames(d.finished) + if d.tx.BUSY? then [d.current.value] else []
  {
    InitialInv(s);
    RunCarriesOn(s, labels, i);
    RunKeepsInv(s, labels);
    NothingOnWire(s, i);
    OnWireAtRest(Run(s, labels).value.devices[i]);
    Joined([], [], CarriedFor(RunCarries(s, labels), i));
  }

  lemma NothingOnWire(s: Net, i: nat)
    requires Initial(s) && i < |s.devices|
    ensures OnWire(s.devices[i]) == []
  {
    assert s.devices[i] in s.devices;
  }

  lemma OnWireAtRest(d: Device)
    requires AtRest(d)
    ensures d.tx.BUSY? ==> d.current.Some?
    ensures OnWire(d) == SentFrames(d.finished) + if d.tx.BUSY? then [d.current.value] else []
  {
  }

  /** So what the wire carries of a device are packets it accepted, in the order of acceptance, none twice: the frames
      are those at increasing positions among the accepted ones. */
  lemma WireKeepsOrder(s: Net, labels: seq<Label>, i: nat) returns (positions: seq<nat>)
    requires Initial(s) && ValidRun(s, labels) && i < |s.devices|
    ensures Run(s, labels).Success? && |Run(s, labels).value.devices| == |s.devices|
    ensures Picks(CarriedFor(RunCarries(s, labels), i), Run(s, labels).value.devices[i].accepted, positions)
  {
    WireCarriesSent(s, labels, i);
    InitialInv(s);
    RunKeepsInv(s, labels);
    var d := Run(s, labels).value.devices[i];
    assert AtRest(d);
    positions := SentPositions(d.finished);
    FinishedArePrefix(d);
    PicksGrow(SentFrames(d.finished), FramesOf(d.finished), InFlight(d) + d.queue, positions);
    if d.tx.BUSY? {
      PicksNext(SentFrames(d.finished), FramesOf(d.finished), d.current.value, d.queue, positions);
      positions := positions + [|d.finished|];
      assert InFlight(d) == [d.current.value];
    } else {
      assert SentFrames(d.finished) + [] == SentFrames(d.finished);
    }
  }

  /** The picked frames stand in `all` at the given positions, which increase. */
  predicate Picks(picked: seq<Bytes>, all: seq<Bytes>, positions: seq<nat>) {
    && |picked| == |positions|
    && (forall k :: 0 <= k < |positions| ==> positions[k] < |all| && all[positions[k]] == picked[k])
    && (forall j, k :: 0 <= j < k < |positions| ==> positions[j] < positions[k])
  }

  lemma {:induction false} SentPositions(records: seq<Record>) returns (positions: seq<nat>)
    ensures Picks(SentFrames(records), FramesOf(records), positions)
  {
    if records == [] {
      positions := [];
    } else {
      var last := |records| - 1;
      positions := SentPositions(records[..last]);
      assert FramesOf(records) == FramesOf(records[..last]) + [records[last].frame];
      if records[last].fate.Sent? {
        PicksNext(SentFrames(records[..last]), FramesOf(records[..last]), records[last].frame, [], positions);
        positions := positions + [last];
        assert [records[last].frame] + [] == [records[last].frame];
      } else {
        PicksGrow(SentFrames(records[..last]), FramesOf(records[..last]), [records[last].frame], positions);
        assert SentFrames(records[..last]) + [] == SentFrames(records[..last]);
      }
    }
  }

  lemma PicksGrow(picked: seq<Bytes>, all: seq<Bytes>, more: seq<Bytes>, positions: seq<nat>)
    requires Picks(picked, all, positions)
    ensures Picks(picked, all + more, positions)
  {
  }

  lemma PicksNext(picked: seq<Bytes>, all: seq<Bytes>, next: Bytes, more: seq<Bytes>, positions: seq<nat>)
    requires Picks(picked, all, positions)
    ensures Picks(picked + [next], all + ([next] + more), positions + [|all|])
  {
  }

  lemma FinishedArePrefix(d: Device)
    requires AtRest(d)
    ensures FramesOf(d.finished) + (InFlight(d) + d.queue) == d.accepted
  {
    assert FramesOf(d.finished) + (InFlight(d) + d.queue) == FramesOf(d.finished) + InFlight(d) + d.queue;
  }
}
