/** The devices of one channel as objects, driven by the simulator: every step is a step of CsmaNetwork, so
    every assertion of the handlers holds when they are called, and the event loop comes to an end. */
module CsmaSimulation {
  import opened Wrappers
  import opened Backoffs
  import opened Frames
  import opened Transmitter
  import opened CsmaNetwork
  import opened CsmaProgress
  import opened CsmaWire
  import opened CsmaDevices

  class Network {
    const devices: seq<CsmaNetDevice>
    const channel: CsmaChannel
    const sim: Simulator

    /** New devices on an idle channel with nothing pending are a network in its initial state. */
    constructor (devices: seq<CsmaNetDevice>, channel: CsmaChannel, sim: Simulator)
      requires forall i :: 0 <= i < |devices| ==>
                 var d := devices[i];
                 && d.id == i && d.channel == channel && d.sim == sim
                 && d.View() == NewDevice(d.backoff.params, d.capacity, d.sendEnable)
      requires forall i, j :: 0 <= i < j < |devices| ==>
                 devices[i] != devices[j] && devices[i].backoff != devices[j].backoff
      requires channel.state.IDLE? && sim.pending == multiset{}
      ensures this.devices == devices && this.channel == channel && this.sim == sim
      ensures Wired() && Initial(View()) && Inv(View())
    {
      this.devices, this.channel, this.sim := devices, channel, sim;
      new;
      InitialInv(View());
    }

    /** All devices share the channel and the simulator and nothing else, and are numbered by position. */
    ghost predicate Wired() {
      && (forall i :: 0 <= i < |devices| ==>
            devices[i].id == i && devices[i].channel == channel && devices[i].sim == sim)
      && (forall i, j :: 0 <= i < j < |devices| ==>
            devices[i] != devices[j] && devices[i].backoff != devices[j].backoff)
    }

    ghost function Counters(): set<Backoff> {
      set d | d in devices :: d.backoff
    }

    ghost function Views(): seq<Device>
      reads devices, Counters()
    {
      seq(|devices|, i requires 0 <= i < |devices| reads devices, Counters() => devices[i].View())
    }

    ghost function View(): Net
      reads devices, Counters(), channel, sim
    {
      Net(Views(), channel.state, sim.pending)
    }

    method SetSendEnable(i: nat, enable: bool)
      requires Wired() && Inv(View()) && i < |devices|
      modifies devices
      ensures Next(old(View()), CsmaNetwork.SetSendEnable(i, enable)) == Success(View()) && Inv(View())
    {
      devices[i].SetSendEnable(enable);
      assert Views() == old(Views())[i := devices[i].View()];
      NextKeepsInv(old(View()), CsmaNetwork.SetSendEnable(i, enable));
    }

    /** A send that AddHeader refuses or with the send side off changes nothing; any other is a Send step. */
    method Send(i: nat, packet: Packet, source: Mac48, destination: Mac48, protocol: uint16)
      returns (ok: bool, fault: Option<Fault>, ghost l: Label)
      requires Wired() && Inv(View()) && i < |devices|
      modifies devices, Counters(), channel, sim, packet
      ensures Inv(View())
      ensures ok <==> old(devices[i].sendEnable) && fault == None && |old(devices[i].queue)| < devices[i].capacity
      ensures if old(devices[i].sendEnable) && fault == None
              then l.Send? && l.id == i && l.frame == packet.bytes && Enabled(old(View()), l)
                && Next(old(View()), l) == Success(View())
                && channel.carried == old(channel.carried) + StepCarries(old(View()), l)
              else !ok && View() == old(View()) && channel.carried == old(channel.carried)
    {
      ghost var c: Choice;
      ok, fault, c := devices[i].SendFrom(packet, source, destination, protocol);
      l := Label.Send(i, packet.bytes, c);
      assert Views() == old(Views())[i := devices[i].View()];
      if old(devices[i].sendEnable) && fault == None {
        NextKeepsInv(old(View()), l);
      } else {
        assert Views() == old(Views());
      }
    }

    /** Runs one pending event. The callees' preconditions are the assertions of the source. */
    method Fire(e: Event) returns (ghost l: Label)
      requires Wired() && Inv(View()) && e in sim.pending
      modifies devices, Counters(), channel, sim
      ensures l.Fire? && l.event == e && Enabled(old(View()), l)
      ensures Next(old(View()), l) == Success(View()) && Inv(View())
      ensures channel.carried == old(channel.carried) + StepCarries(old(View()), l)
    {
      ghost var before := View();
      sim.Take(e);
      match e {
        case PropagationComplete =>
          assert before.pending[PropagationComplete] > 0;
          channel.PropagationCompleteEvent();
          l := Label.Fire(e, Choice(true, 0));
          assert Views() == before.devices;
        case TimerEvent(i, timer) =>
          l := FireTimer(before, i, timer);
      }
      NextKeepsInv(before, l);
    }

    method FireTimer(ghost before: Net, i: nat, timer: Timer) returns (ghost l: Label)
      requires Wired() && Inv(before) && TimerEvent(i, timer) in before.pending
      requires View() == before.(pending := before.pending - multiset{TimerEvent(i, timer)})
      modifies devices, Counters(), channel, sim
      ensures l.Fire? && l.event == TimerEvent(i, timer) && Enabled(before, l) && Next(before, l) == Success(View())
      ensures channel.carried == old(channel.carried) + StepCarries(before, l)
    {
      RemoveTimer(before, i, timer);
      var d := devices[i];
      assert before.devices[i] == d.View();
      assert AtRest(before.devices[i]);
      ghost var c := d.HandleTimer(timer);
      l := Label.Fire(TimerEvent(i, timer), c);
      TimerStep(before, i, timer, c);
      assert Views() == before.devices[i := d.View()];
    }

    /** The event loop: without new sends it fires at most the network's load of events and ends with the
        wire idle and every device READY or wedged. */
    method RunUntilQuiet()
      requires Wired() && Inv(View())
      modifies devices, Counters(), channel, sim
      ensures Inv(View()) && View().pending == multiset{} && View().wire.IDLE?
      ensures forall i :: 0 <= i < |devices| ==> View().devices[i].tx.READY? || Wedged(View().devices[i])
      ensures SamePaid(old(View()).devices, View().devices)
    {
      while sim.pending != multiset{}
        invariant Inv(View()) && SamePaid(old(View()).devices, View().devices)
        decreases NetLoad(View())
      {
        var e :| e in sim.pending;
        ghost var before := View();
        ghost var l := Fire(e);
        FireLowersLoad(before, l);
      }
      QuietState(View());
    }
  }

  /** A step that fires a timer, spelled out. */
  lemma TimerStep(s: Net, i: nat, timer: Timer, c: Choice)
    requires Inv(s) && Enabled(s, Label.Fire(TimerEvent(i, timer), c))
    ensures OnTimer(s.devices[i], s.wire, timer, c).Success?
    ensures var e := OnTimer(s.devices[i], s.wire, timer, c).value;
            var posted := if timer.CompleteTimer? then multiset{PropagationComplete} else multiset{};
            && Next(s, Label.Fire(TimerEvent(i, timer), c))
                 == Success(Net(s.devices[i := e.device], e.wire,
                                s.pending - multiset{TimerEvent(i, timer)} + posted + Post(i, e.posted)))
            && StepCarries(s, Label.Fire(TimerEvent(i, timer), c)) == Handed(i, e)
  {
    NextDevices(s, Label.Fire(TimerEvent(i, timer), c));
  }

  lemma FireLowersLoad(s: Net, l: Label)
    requires Inv(s) && l.Fire? && Enabled(s, l)
    ensures Next(s, l).Success?
    ensures 0 <= NetLoad(Next(s, l).value) < NetLoad(s)
    ensures SamePaid(s.devices, Next(s, l).value.devices)
  {
    NextKeepsInv(s, l);
    assert Run(Next(s, l).value, []).Success?;
    assert ValidRun(s, [l]);
    assert Run(s, [l]) == Run(Next(s, l).value, []);
    QuietAfterLoad(s, [l]);
    SameAccepted(s, [l]);
  }
}
