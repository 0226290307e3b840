/** `timerCallback`: while `clear()` holds (enable requested but a driver
    override active), every overridden subsystem's command message is
    rewritten with its actuation values zeroed and its clear-override
    signal set, and sent. As written the steering enable request keeps its
    buffered value; the corrected sweep zeroes it too. */
module FailSafe {
  import opened DbwState
  import opened Events
  import opened CommandEncoder

  /** The brake sweep: pedal, enable and control mode zeroed, clear set. */
  function SweepBrake(b: BrakeSignals): (r: BrakeSignals)
    ensures r.enable == Held(0.0) && r.pedal == Held(0.0) && r.mode == Held(0.0)
    ensures r.clear == Held(1.0)
    ensures r.counter == b.counter
  {
    b.(pedal := Held(0.0), enable := Held(0.0), mode := Held(0.0), clear := Held(1.0))
  }

  /** The accelerator sweep: pedal, enable, ignore and control mode
      zeroed, clear set. */
  function SweepAcceleratorPedal(a: AcceleratorPedalSignals): (r: AcceleratorPedalSignals)
    ensures r.enable == Held(0.0) && r.pedal == Held(0.0) && r.ignore == Held(0.0) && r.mode == Held(0.0)
    ensures r.clear == Held(1.0)
    ensures r.counter == a.counter
  {
    a.(pedal := Held(0.0), enable := Held(0.0), ignore := Held(0.0), mode := Held(0.0), clear := Held(1.0))
  }

  /** The steering sweep: angle, velocity, ignore, quiet, torque, control
      mode and command type zeroed, clear set. With `zeroEnable` false, as
      written, the enable request is left as the last command wrote it. */
  function SweepSteering(st: SteeringSignals, zeroEnable: bool): (r: SteeringSignals)
    ensures r.angle == Held(0.0) && r.velocity == Held(0.0) && r.ignore == Held(0.0) && r.quiet == Held(0.0)
    ensures r.torque == Held(0.0) && r.mode == Held(0.0) && r.commandType == Held(0.0)
    ensures r.clear == Held(1.0)
    ensures r.enable == if zeroEnable then Held(0.0) else st.enable
    ensures r.counter == st.counter
  {
    var swept := st.(angle := Held(0.0), velocity := Held(0.0), ignore := Held(0.0), quiet := Held(0.0),
                     torque := Held(0.0), mode := Held(0.0), commandType := Held(0.0), clear := Held(1.0));
    if zeroEnable then swept.(enable := Held(0.0)) else swept
  }

  /** The gear sweep: gear zeroed, clear set. */
  function SweepGear(g: GearSignals): (r: GearSignals)
    ensures r.gear == Held(0.0) && r.clear == Held(1.0)
    ensures r.counter == g.counter
  {
    g.(gear := Held(0.0), clear := Held(1.0))
  }

  /** The messages a sweep sends, in order: one per raised override. */
  function SweptMessages(g: Gates): (r: seq<CommandMessage>)
    ensures BrakeCommand in r <==> g.Get(OverrideGate(Brake))
    ensures AcceleratorPedalCommand in r <==> g.Get(OverrideGate(AcceleratorPedal))
    ensures SteeringCommand in r <==> g.Get(OverrideGate(Steering))
    ensures GearCommand in r <==> g.Get(OverrideGate(Gear))
    ensures MiscCommand !in r
  {
    (if g.Get(OverrideGate(Brake)) then [BrakeCommand] else [])
    + (if g.Get(OverrideGate(AcceleratorPedal)) then [AcceleratorPedalCommand] else [])
    + (if g.Get(OverrideGate(Steering)) then [SteeringCommand] else [])
    + (if g.Get(OverrideGate(Gear)) then [GearCommand] else [])
  }

  /** The sweep of one command frame; the miscellaneous message is never
      swept and is left as it is. */
  function SweepFrame(f: Frame, zeroEnable: bool): (r: Frame)
    ensures r.Message() == f.Message()
    ensures !f.MiscFrame? ==> ClearsOverride(r)
    ensures zeroEnable && !f.MiscFrame? ==> Neutral(r) && !RequestsControl(r)
  {
    match f
    case BrakeFrame(b) => BrakeFrame(SweepBrake(b))
    case AcceleratorPedalFrame(a) => AcceleratorPedalFrame(SweepAcceleratorPedal(a))
    case SteeringFrame(st) => SteeringFrame(SweepSteering(st, zeroEnable))
    case GearFrame(g) => GearFrame(SweepGear(g))
    case MiscFrame(_) => f
  }

  /** Sweeping a frame twice is sweeping it once. */
  lemma SweepFrameIdempotent(f: Frame, zeroEnable: bool)
    ensures SweepFrame(SweepFrame(f, zeroEnable), zeroEnable) == SweepFrame(f, zeroEnable)
  {
  }

  /** Sweep the messages `ms` in order, sending each swept frame. */
  function SweepAll(s: State, ms: seq<CommandMessage>, zeroEnable: bool): (r: Transition)
    ensures r.next.(buffers := s.buffers) == s
    ensures FramesSent(r.events) == ms
    ensures Publications(r.events) == []
    ensures forall m :: m !in ms ==> r.next.buffers.Get(m) == s.buffers.Get(m)
    ensures forall m :: m in ms ==> r.next.buffers.Get(m) == SweepFrame(s.buffers.Get(m), zeroEnable)
    ensures forall e :: e in r.events ==>
              e.FrameSent? && e.frame.Message() in ms && e.frame == r.next.buffers.Get(e.frame.Message())
    decreases |ms|
  {
    if ms == [] then Transition(s, [])
    else
      var f := SweepFrame(s.buffers.Get(ms[0]), zeroEnable);
      var rest := SweepAll(s.(buffers := s.buffers.Put(f)), ms[1..], zeroEnable);
      SweepFrameIdempotent(s.buffers.Get(ms[0]), zeroEnable);
      var evs := [FrameSent(f)] + rest.events;
      assert evs[0] == FrameSent(f) && evs[1..] == rest.events;
      assert forall m :: m in ms <==> m == ms[0] || m in ms[1..];
      Transition(rest.next, evs)
  }

  /** `timerCallback` as written. It sends one frame per raised override,
      in the order brake, accelerator, steering, gear, and nothing unless
      `clear()` holds; every frame asks to clear the override; it publishes
      nothing and touches no arbitration state. The steering enable request
      is never changed by it. */
  function TimerCallback(s: State): (r: Transition)
    ensures r.next.(buffers := s.buffers) == s
    ensures !Clear(s) ==> r.next == s && r.events == []
    ensures FramesSent(r.events) == if Clear(s) then SweptMessages(s.gates) else []
    ensures forall e :: e in r.events ==>
              e.FrameSent? && e.frame == r.next.buffers.Get(e.frame.Message()) && ClearsOverride(e.frame)
    ensures forall m :: m !in FramesSent(r.events) ==> r.next.buffers.Get(m) == s.buffers.Get(m)
    ensures forall m :: m in FramesSent(r.events) ==> r.next.buffers.Get(m) == SweepFrame(s.buffers.Get(m), false)
    ensures Publications(r.events) == []
    ensures r.next.buffers.steering.enable == s.buffers.steering.enable
  {
    if !Clear(s) then Transition(s, [])
    else
      var r := SweepAll(s, SweptMessages(s.gates), false);
      assert r.next.buffers.steering == r.next.buffers.Get(SteeringCommand).steering;
      r
  }

  /** `timerCallback` with the steering enable request zeroed like the
      brake and accelerator ones. Every frame it sends is neutral, asks to
      clear the override and asks the vehicle for nothing. */
  function TimerCallbackCorrected(s: State): (r: Transition)
    ensures r.next.(buffers := s.buffers) == s
    ensures !Clear(s) ==> r.next == s && r.events == []
    ensures FramesSent(r.events) == if Clear(s) then SweptMessages(s.gates) else []
    ensures forall e :: e in r.events ==>
              && e.FrameSent? && e.frame == r.next.buffers.Get(e.frame.Message())
              && ClearsOverride(e.frame) && Neutral(e.frame) && !RequestsControl(e.frame)
    ensures forall m :: m !in FramesSent(r.events) ==> r.next.buffers.Get(m) == s.buffers.Get(m)
    ensures forall m :: m in FramesSent(r.events) ==> r.next.buffers.Get(m) == SweepFrame(s.buffers.Get(m), true)
    ensures Publications(r.events) == []
  {
    if !Clear(s) then Transition(s, [])
    else SweepAll(s, SweptMessages(s.gates), true)
  }
}
