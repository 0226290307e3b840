/** The command encoders `recvBrakeCmd`, `recvAcceleratorPedalCmd`,
    `recvSteeringCmd`, `recvGearCmd` and `recvMiscCmd`. Each one writes
    signals into the persistent message object of its command message and
    sends the whole object as one frame; a signal it does not write keeps
    the value an earlier call left there. */
module CommandEncoder {
  import opened DbwState
  import opened Events

  /** The fields of the command requests the encoders read. Angle and
      angular velocity are given already scaled to the units the encoder
      limits: tenths of a degree, and the raw unit of the velocity signal. */
  datatype BrakeCmd = BrakeCmd(pedalCmd: real, controlMode: int, clear: bool, count: int)

  datatype AcceleratorPedalCmd = AcceleratorPedalCmd(
    pedalCmd: real, controlMode: int, clear: bool, ignore: bool, rollingCounter: int)

  datatype SteeringCmd = SteeringCmd(
    commandType: int,
    angleCmd: real,
    torqueCmd: real,
    angleVelocity: real,
    clear: bool,
    ignore: bool,
    quiet: bool,
    controlMode: int,
    count: int)

  datatype GearCmd = GearCmd(gear: int, clear: bool, rollingCounter: int)

  datatype MiscCmd = MiscCmd(turnSignal: int, doorRequest: int, rollingCounter: int)

  /** A command request arriving on one of the five command topics. */
  datatype Request =
    | BrakeRequest(brake: BrakeCmd)
    | AcceleratorPedalRequest(acceleratorPedal: AcceleratorPedalCmd)
    | SteeringRequest(steering: SteeringCmd)
    | GearRequest(gear: GearCmd)
    | MiscRequest(misc: MiscCmd)

  /** A boolean as the signal value 1 or 0. */
  function Flag(b: bool): Value {
    if b then Held(1.0) else Held(0.0)
  }

  function Abs(x: real): real {
    if x < 0.0 then -x else x
  }

  /** `recvBrakeCmd` */
  function RecvBrakeCmd(s: State, cmd: BrakeCmd): (r: Transition)
    ensures r.next == s.(buffers := s.buffers.(brake := r.next.buffers.brake))
    ensures r.events == [FrameSent(BrakeFrame(r.next.buffers.brake))]
    ensures r.next.buffers.brake.enable == Flag(Enabled(s))
    ensures r.next.buffers.brake.pedal == Held(if Enabled(s) then cmd.pedalCmd else 0.0)
    ensures r.next.buffers.brake.mode == Flag(cmd.controlMode == 1)
    ensures r.next.buffers.brake.clear == Flag(Clear(s) || cmd.clear)
    ensures r.next.buffers.brake.counter == Held(cmd.count as real)
  {
    var b0 := s.buffers.brake.(enable := Held(0.0), pedal := Held(0.0), mode := Held(0.0), clear := Held(0.0));
    var b1 := if Enabled(s) then b0.(pedal := Held(cmd.pedalCmd)).(enable := Held(1.0)) else b0;
    var b2 := b1.(counter := Held(cmd.count as real));
    var b3 := if cmd.controlMode == 1 then b2.(mode := Held(1.0)) else b2;
    var b4 := if Clear(s) || cmd.clear then b3.(clear := Held(1.0)) else b3;
    Transition(s.(buffers := s.buffers.(brake := b4)), [FrameSent(BrakeFrame(b4))])
  }

  /** `recvAcceleratorPedalCmd`. As written, control mode 1 also overwrites
      the watchdog counter with 1: the statement meant for that branch sits
      before its braces. */
  function RecvAcceleratorPedalCmd(s: State, cmd: AcceleratorPedalCmd): (r: Transition)
    ensures r.next == s.(buffers := s.buffers.(acceleratorPedal := r.next.buffers.acceleratorPedal))
    ensures r.events == [FrameSent(AcceleratorPedalFrame(r.next.buffers.acceleratorPedal))]
    ensures r.next.buffers.acceleratorPedal.enable == Flag(Enabled(s))
    ensures r.next.buffers.acceleratorPedal.pedal == Held(if Enabled(s) then cmd.pedalCmd else 0.0)
    ensures r.next.buffers.acceleratorPedal.counter
         == Held(if cmd.controlMode == 1 then 1.0 else cmd.rollingCounter as real)
    ensures r.next.buffers.acceleratorPedal.mode == Flag(cmd.controlMode == 1)
    ensures r.next.buffers.acceleratorPedal.clear == Flag(Clear(s) || cmd.clear)
    ensures r.next.buffers.acceleratorPedal.ignore == Flag(cmd.ignore)
  {
    var b0 := s.buffers.acceleratorPedal.(enable := Held(0.0), pedal := Held(0.0), counter := Held(0.0),
                                          mode := Held(0.0), clear := Held(0.0), ignore := Held(0.0));
    var b1 := if Enabled(s) then b0.(pedal := Held(cmd.pedalCmd)).(enable := Held(1.0)) else b0;
    var b2 := b1.(counter := Held(cmd.rollingCounter as real));
    var b3 := if cmd.controlMode == 1 then b2.(counter := Held(1.0)) else b2;
    var b4 := if cmd.controlMode == 1 then b3.(mode := Held(1.0)) else b3;
    var b5 := if Clear(s) || cmd.clear then b4.(clear := Held(1.0)) else b4;
    var b6 := if cmd.ignore then b5.(ignore := Held(1.0)) else b5;
    Transition(s.(buffers := s.buffers.(acceleratorPedal := b6)), [FrameSent(AcceleratorPedalFrame(b6))])
  }

  /** The angle command written in angle mode: the request in tenths of a
      degree, limited to [-5000, 5000], divided by 10. */
  function AngleSignal(tenths: real): (r: real)
    ensures -500.0 <= r <= 500.0
    ensures -5000.0 <= tenths <= 5000.0 ==> r * 10.0 == tenths
    ensures tenths >= 5000.0 ==> r == 500.0
    ensures tenths <= -5000.0 ==> r == -500.0
  {
    var limited := if 5000.0 < tenths then 5000.0 else tenths;
    (if limited < -5000.0 then -5000.0 else limited) / 10.0
  }

  /** The angular-velocity limit written for a nonzero request: its
      magnitude rounded half away from zero, then limited to [1, 254]. */
  function VelocitySignal(v: real): (r: real)
    ensures 1.0 <= r <= 254.0
    ensures r == r.Floor as real
    ensures 0.5 <= Abs(v) < 254.5 ==> -0.5 < r - Abs(v) <= 0.5
    ensures Abs(v) < 0.5 ==> r == 1.0
    ensures Abs(v) >= 253.5 ==> r == 254.0
  {
    var rounded := (Abs(v) + 0.5).Floor as real;
    var limited := if 254.0 < rounded then 254.0 else rounded;
    if limited < 1.0 then 1.0 else limited
  }

  /** The writes `recvSteeringCmd` makes only while enabled: the command
      type, the angle (command type 0) or else the torque, the velocity
      limit for a nonzero velocity request, and the enable request. */
  function SteeringActuation(b: SteeringSignals, cmd: SteeringCmd): (r: SteeringSignals)
    ensures r.commandType == Held(cmd.commandType as real)
    ensures r.enable == Held(1.0)
    ensures r.angle == if cmd.commandType == 0 then Held(AngleSignal(cmd.angleCmd)) else b.angle
    ensures r.torque == if cmd.commandType != 0 then Held(cmd.torqueCmd) else b.torque
    ensures r.velocity == if cmd.angleVelocity != 0.0 then Held(VelocitySignal(cmd.angleVelocity)) else b.velocity
    ensures r.(commandType := b.commandType, enable := b.enable, angle := b.angle, torque := b.torque,
               velocity := b.velocity) == b
  {
    var c0 := b.(commandType := Held(cmd.commandType as real));
    var c1 := if cmd.commandType == 0 then c0.(angle := Held(AngleSignal(cmd.angleCmd)))
              else c0.(torque := Held(cmd.torqueCmd));
    var c2 := if Abs(cmd.angleVelocity) > 0.0 then c1.(velocity := Held(VelocitySignal(cmd.angleVelocity)))
              else c1;
    c2.(enable := Held(1.0))
  }

  /** The signals `recvSteeringCmd` writes into `b`, given `enabled()` as
      `en` and `clear()` as `clr`. */
  function SteeringSignalsFor(b: SteeringSignals, en: bool, clr: bool, cmd: SteeringCmd): (r: SteeringSignals)
    ensures r.enable == Flag(en)
    ensures r.commandType == if en then Held(cmd.commandType as real) else b.commandType
    ensures r.angle == Held(if en && cmd.commandType == 0 then AngleSignal(cmd.angleCmd) else 0.0)
    ensures r.torque == Held(if en && cmd.commandType != 0 then cmd.torqueCmd else 0.0)
    ensures r.velocity == Held(if en && cmd.angleVelocity != 0.0 then VelocitySignal(cmd.angleVelocity) else 0.0)
    ensures r.clear == Flag(clr || cmd.clear)
    ensures r.ignore == Flag(cmd.ignore)
    ensures r.quiet == Flag(cmd.quiet)
    ensures r.mode == Flag(cmd.controlMode == 1)
    ensures r.counter == Held(cmd.count as real)
  {
    var b0 := b.(enable := Held(0.0), angle := Held(0.0), torque := Held(0.0), velocity := Held(0.0),
                 clear := Held(0.0), ignore := Held(0.0), quiet := Held(0.0), mode := Held(0.0));
    var b1 := if en then SteeringActuation(b0, cmd) else b0;
    var b2 := if clr || cmd.clear then b1.(clear := Held(1.0)) else b1;
    var b3 := if cmd.ignore then b2.(ignore := Held(1.0)) else b2;
    var b4 := if cmd.quiet then b3.(quiet := Held(1.0)) else b3;
    var b5 := if cmd.controlMode == 1 then b4.(mode := Held(1.0)) else b4;
    b5.(counter := Held(cmd.count as real))
  }

  /** `recvSteeringCmd`. The command type is written only while enabled;
      otherwise it keeps its earlier value. */
  function RecvSteeringCmd(s: State, cmd: SteeringCmd): (r: Transition)
    ensures r.next == s.(buffers := s.buffers.(steering := r.next.buffers.steering))
    ensures r.events == [FrameSent(SteeringFrame(r.next.buffers.steering))]
    ensures r.next.buffers.steering.enable == Flag(Enabled(s))
    ensures r.next.buffers.steering.commandType
         == if Enabled(s) then Held(cmd.commandType as real) else s.buffers.steering.commandType
    ensures r.next.buffers.steering.angle
         == Held(if Enabled(s) && cmd.commandType == 0 then AngleSignal(cmd.angleCmd) else 0.0)
    ensures r.next.buffers.steering.torque
         == Held(if Enabled(s) && cmd.commandType != 0 then cmd.torqueCmd else 0.0)
    ensures r.next.buffers.steering.velocity
         == Held(if Enabled(s) && cmd.angleVelocity != 0.0 then VelocitySignal(cmd.angleVelocity) else 0.0)
    ensures r.next.buffers.steering.clear == Flag(Clear(s) || cmd.clear)
    ensures r.next.buffers.steering.ignore == Flag(cmd.ignore)
    ensures r.next.buffers.steering.quiet == Flag(cmd.quiet)
    ensures r.next.buffers.steering.mode == Flag(cmd.controlMode == 1)
    ensures r.next.buffers.steering.counter == Held(cmd.count as real)
  {
    var b := SteeringSignalsFor(s.buffers.steering, Enabled(s), Clear(s), cmd);
    Transition(s.(buffers := s.buffers.(steering := b)), [FrameSent(SteeringFrame(b))])
  }

  /** `recvGearCmd` */
  function RecvGearCmd(s: State, cmd: GearCmd): (r: Transition)
    ensures r.next == s.(buffers := s.buffers.(gear := r.next.buffers.gear))
    ensures r.events == [FrameSent(GearFrame(r.next.buffers.gear))]
    ensures r.next.buffers.gear.gear == Held(if Enabled(s) then cmd.gear as real else 0.0)
    ensures r.next.buffers.gear.clear == Flag(Clear(s) || cmd.clear)
    ensures r.next.buffers.gear.counter == Held(cmd.rollingCounter as real)
  {
    var b0 := s.buffers.gear.(gear := Held(0.0), clear := Held(0.0));
    var b1 := if Enabled(s) then b0.(gear := Held(cmd.gear as real)) else b0;
    var b2 := if Clear(s) || cmd.clear then b1.(clear := Held(1.0)) else b1;
    var b3 := b2.(counter := Held(cmd.rollingCounter as real));
    Transition(s.(buffers := s.buffers.(gear := b3)), [FrameSent(GearFrame(b3))])
  }

  /** `recvMiscCmd`: the turn signal is gated on enabled, the door request
      is not. */
  function RecvMiscCmd(s: State, cmd: MiscCmd): (r: Transition)
    ensures r.next == s.(buffers := s.buffers.(misc := r.next.buffers.misc))
    ensures r.events == [FrameSent(MiscFrame(r.next.buffers.misc))]
    ensures r.next.buffers.misc.turnSignal == Held(if Enabled(s) then cmd.turnSignal as real else 0.0)
    ensures r.next.buffers.misc.door == Held(cmd.doorRequest as real)
    ensures r.next.buffers.misc.counter == Held(cmd.rollingCounter as real)
  {
    var b0 := s.buffers.misc.(turnSignal := Held(0.0));
    var b1 := if Enabled(s) then b0.(turnSignal := Held(cmd.turnSignal as real)) else b0;
    var b2 := b1.(door := Held(cmd.doorRequest as real)).(counter := Held(cmd.rollingCounter as real));
    Transition(s.(buffers := s.buffers.(misc := b2)), [FrameSent(MiscFrame(b2))])
  }

  /** The message a request is encoded into. */
  function Target(req: Request): CommandMessage {
    match req
    case BrakeRequest(_) => BrakeCommand
    case AcceleratorPedalRequest(_) => AcceleratorPedalCommand
    case SteeringRequest(_) => SteeringCommand
    case GearRequest(_) => GearCommand
    case MiscRequest(_) => MiscCommand
  }

  /** A frame that asks the vehicle to act: an enable request or a nonzero
      actuation value on brake, accelerator or steering, a nonzero gear, or
      a nonzero turn signal. The ungated signals (the door toggle request,
      the ignore, quiet and mode flags, the counters) are not counted. */
  predicate RequestsControl(f: Frame) {
    match f
    case BrakeFrame(b) => b.enable == Held(1.0) || b.pedal != Held(0.0)
    case AcceleratorPedalFrame(a) => a.enable == Held(1.0) || a.pedal != Held(0.0)
    case SteeringFrame(st) =>
      st.enable == Held(1.0) || st.angle != Held(0.0) || st.torque != Held(0.0) || st.velocity != Held(0.0)
    case GearFrame(g) => g.gear != Held(0.0)
    case MiscFrame(m) => m.turnSignal != Held(0.0)
  }

  /** A frame whose gated actuation signals are all written as zero; the
      ungated ones, such as the door toggle request, are not constrained. */
  predicate Neutral(f: Frame) {
    match f
    case BrakeFrame(b) => b.enable == Held(0.0) && b.pedal == Held(0.0)
    case AcceleratorPedalFrame(a) => a.enable == Held(0.0) && a.pedal == Held(0.0)
    case SteeringFrame(st) =>
      st.enable == Held(0.0) && st.angle == Held(0.0) && st.torque == Held(0.0) && st.velocity == Held(0.0)
    case GearFrame(g) => g.gear == Held(0.0)
    case MiscFrame(m) => m.turnSignal == Held(0.0)
  }

  /** A frame asking the vehicle to clear a driver override. */
  predicate ClearsOverride(f: Frame) {
    match f
    case BrakeFrame(b) => b.clear == Held(1.0)
    case AcceleratorPedalFrame(a) => a.clear == Held(1.0)
    case SteeringFrame(st) => st.clear == Held(1.0)
    case GearFrame(g) => g.clear == Held(1.0)
    case MiscFrame(_) => false
  }

  /** One command request, routed to its encoder. Every request sends
      exactly one frame of its own message, leaves the arbitration state
      alone, is neutral while the system is not enabled, asks for the
      override to be cleared whenever `clear()` holds, and asks the vehicle
      to act only while enabled. */
  function Encode(s: State, req: Request): (r: Transition)
    ensures r.next.(buffers := s.buffers) == s
    ensures forall m :: m != Target(req) ==> r.next.buffers.Get(m) == s.buffers.Get(m)
    ensures |r.events| == 1 && r.events[0] == FrameSent(r.next.buffers.Get(Target(req)))
    ensures !Enabled(s) ==> Neutral(r.events[0].frame)
    ensures RequestsControl(r.events[0].frame) ==> Enabled(s)
    ensures Clear(s) && !req.MiscRequest? ==> ClearsOverride(r.events[0].frame)
  {
    match req
    case BrakeRequest(cmd) => RecvBrakeCmd(s, cmd)
    case AcceleratorPedalRequest(cmd) => RecvAcceleratorPedalCmd(s, cmd)
    case SteeringRequest(cmd) => RecvSteeringCmd(s, cmd)
    case GearRequest(cmd) => RecvGearCmd(s, cmd)
    case MiscRequest(cmd) => RecvMiscCmd(s, cmd)
  }

  /** The door toggle request is not gated: while the system is not
      enabled a misc request still sends it unchanged, in a frame that is
      neutral and does not ask the vehicle to act. */
  lemma DoorRequestUngated(s: State, cmd: MiscCmd)
    requires !Enabled(s)
    ensures var r := Encode(s, MiscRequest(cmd));
      && r.events == [FrameSent(MiscFrame(r.next.buffers.misc))]
      && r.next.buffers.misc.door == Held(cmd.doorRequest as real)
      && Neutral(MiscFrame(r.next.buffers.misc))
      && !RequestsControl(MiscFrame(r.next.buffers.misc))
  {
  }
}
