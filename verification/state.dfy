/** The state owned by the drive-by-wire node: the enable flag and its
    published shadow, the override and fault flags that gate enabling, the
    watchdog latches, the per-subsystem timeout feedback, the gear-reject
    latch, the persistent signal buffers of the five outbound command
    messages and the VIN accumulator.

    The query predicates `Fault`, `Override`, `Enabled` and `Clear` stand for
    the header's inline `fault()`, `override()`, `enabled()` and `clear()`. */
module DbwState {

  /** The four actuated subsystems that can report a driver override. */
  datatype Subsystem = Brake | AcceleratorPedal | Steering | Gear

  /** The subsystems that carry a command-timeout indication. */
  type TimedSubsystem = s: Subsystem | s != Gear witness Brake

  /** An unsigned 8-bit value, as the watchdog source code is carried. */
  type Byte = x: int | 0 <= x < 256

  /** The five fault sources that block enabling. */
  datatype FaultKind = BrakeFault | AcceleratorPedalFault | SteeringFault | SteeringCalFault | WatchdogFault

  /** A gating flag: raising one while enabled revokes the enable. */
  datatype Gate = OverrideGate(subsystem: Subsystem) | FaultGate(kind: FaultKind)

  /** The four override flags and the five fault flags, as the set of
      those that are raised. */
  datatype Gates = Gates(raised: set<Gate>)
  {
    predicate Get(g: Gate) {
      g in raised
    }

    /** Stores `b` in the flag of `g` and in no other flag. */
    function Set(g: Gate, b: bool): (r: Gates)
      ensures r.Get(g) == b
      ensures forall h :: h != g ==> r.Get(h) == Get(h)
    {
      Gates(if b then raised + {g} else raised - {g})
    }

    predicate AnyFault() {
      || Get(FaultGate(BrakeFault)) || Get(FaultGate(AcceleratorPedalFault)) || Get(FaultGate(SteeringFault))
      || Get(FaultGate(SteeringCalFault)) || Get(FaultGate(WatchdogFault))
    }

    predicate AnyOverride() {
      || Get(OverrideGate(Brake)) || Get(OverrideGate(AcceleratorPedal))
      || Get(OverrideGate(Steering)) || Get(OverrideGate(Gear))
    }
  }

  /** The last `(timeout, enabled)` pair a subsystem report carried. */
  datatype Status = Status(timeout: bool, enabled: bool)

  datatype Timeouts = Timeouts(brakes: Status, acceleratorPedal: Status, steering: Status)
  {
    function Get(sub: TimedSubsystem): Status {
      match sub
      case Brake => brakes
      case AcceleratorPedal => acceleratorPedal
      case Steering => steering
    }

    function Set(sub: TimedSubsystem, st: Status): (r: Timeouts)
      ensures r.Get(sub) == st
      ensures forall o: TimedSubsystem :: o != sub ==> r.Get(o) == Get(o)
    {
      match sub
      case Brake => this.(brakes := st)
      case AcceleratorPedal => this.(acceleratorPedal := st)
      case Steering => this.(steering := st)
    }
  }

  /** `fault_watchdog_using_brakes_` and `fault_watchdog_warned_`. */
  datatype WatchdogLatch = WatchdogLatch(usingBrakes: bool, warned: bool)

  /** The five outbound command messages of the signal dictionary. */
  datatype CommandMessage = BrakeCommand | AcceleratorPedalCommand | SteeringCommand | GearCommand | MiscCommand

  /** A signal of a codec message object: `Unset` until the node first
      writes it, after which it holds the last value written. */
  datatype Value = Unset | Held(v: real)

  /** The signals of `AKit_BrakeCommand`: `AKit_BrakeCtrlEnblCmd`,
      `AKit_BrakePedalCmd`, `AKit_BrakePedalCtrlMode`,
      `AKit_BrakePedalClearDriverOvrd`, `AKit_BrakeWatchdogCntr`. */
  datatype BrakeSignals = BrakeSignals(enable: Value, pedal: Value, mode: Value, clear: Value, counter: Value)

  /** The signals of `AKit_AccelPdlCommand`: `AKit_AccelPdlEnblCmd`,
      `AKit_AccelPdlCmd`, `AKit_AccelPdlWatchdogCntr`,
      `AKit_AccelPdlCtrlMode`, `AKit_AccelPdlClearDriverOvrd`,
      `Akit_AccelPdlIgnoreDriverOvrd`. */
  datatype AcceleratorPedalSignals = AcceleratorPedalSignals(
    enable: Value, pedal: Value, counter: Value, mode: Value, clear: Value, ignore: Value)

  /** The signals of `AKit_SteeringCommand`: `AKit_SteerCtrlEnblCmd`,
      `AKit_SteeringWhlAngleCmd`, `AKit_SteeringWhlTrqCmd`,
      `AKit_SteeringWhlAngleVelocity`, `AKit_SteeringWhlClearDriverOvrd`,
      `AKit_SteeringWhlIgnoreDriverOvrd`, `AKit_SteeringWhlQuiet`,
      `AKit_SteeringWhlCtrlMode`, `AKit_SteeringWhlCmdType`,
      `AKit_SteerCmdWatchdogCntr`. */
  datatype SteeringSignals = SteeringSignals(
    enable: Value, angle: Value, torque: Value, velocity: Value, clear: Value,
    ignore: Value, quiet: Value, mode: Value, commandType: Value, counter: Value)

  /** The signals of `AKit_GearCommand`: `AKit_PrndStateCmd`,
      `AKit_PrndClearDriverOvrd`, `AKit_PrndCmdWatchdogCntr`. */
  datatype GearSignals = GearSignals(gear: Value, clear: Value, counter: Value)

  /** The signals of `AKit_Misc`: `AKit_TurnSignalCmd`, `AKit_DoorToggleReq`,
      `AKit_MiscCmdWatchdogCntr`. */
  datatype MiscSignals = MiscSignals(turnSignal: Value, door: Value, counter: Value)

  /** The contents of one command frame put on the bus. */
  datatype Frame =
    | BrakeFrame(brake: BrakeSignals)
    | AcceleratorPedalFrame(acceleratorPedal: AcceleratorPedalSignals)
    | SteeringFrame(steering: SteeringSignals)
    | GearFrame(gear: GearSignals)
    | MiscFrame(misc: MiscSignals)
  {
    function Message(): CommandMessage {
      match this
      case BrakeFrame(_) => BrakeCommand
      case AcceleratorPedalFrame(_) => AcceleratorPedalCommand
      case SteeringFrame(_) => SteeringCommand
      case GearFrame(_) => GearCommand
      case MiscFrame(_) => MiscCommand
    }
  }

  /** One persistent message object per command message: the codec hands
      back the same object on every lookup, so a signal the node does not
      write keeps its earlier value. */
  datatype Buffers = Buffers(
    brake: BrakeSignals,
    acceleratorPedal: AcceleratorPedalSignals,
    steering: SteeringSignals,
    gear: GearSignals,
    misc: MiscSignals)
  {
    /** The frame sent for message `m`. */
    function Get(m: CommandMessage): (r: Frame)
      ensures r.Message() == m
    {
      match m
      case BrakeCommand => BrakeFrame(brake)
      case AcceleratorPedalCommand => AcceleratorPedalFrame(acceleratorPedal)
      case SteeringCommand => SteeringFrame(steering)
      case GearCommand => GearFrame(gear)
      case MiscCommand => MiscFrame(misc)
    }

    /** Store `f` as the buffer of its message. */
    function Put(f: Frame): (r: Buffers)
      ensures r.Get(f.Message()) == f
      ensures forall m :: m != f.Message() ==> r.Get(m) == Get(m)
    {
      match f
      case BrakeFrame(b) => this.(brake := b)
      case AcceleratorPedalFrame(a) => this.(acceleratorPedal := a)
      case SteeringFrame(st) => this.(steering := st)
      case GearFrame(g) => this.(gear := g)
      case MiscFrame(m) => this.(misc := m)
    }
  }

  datatype State = State(
    enable: bool,
    prevEnable: bool,
    gates: Gates,
    watchdog: WatchdogLatch,
    timeouts: Timeouts,
    gearWarned: bool,
    buffers: Buffers,
    vin: seq<int>)

  /** `fault()`: some fault flag is raised. */
  predicate Fault(s: State) {
    s.gates.AnyFault()
  }

  /** `override()`: some override flag is raised. */
  predicate Override(s: State) {
    s.gates.AnyOverride()
  }

  /** `enabled()`: enable was requested and nothing blocks it. */
  predicate Enabled(s: State) {
    s.enable && !Fault(s) && !Override(s)
  }

  /** `clear()`: enable was requested while a driver override is active, so
      the override should be cleared on the bus. */
  predicate Clear(s: State) {
    s.enable && Override(s)
  }

  /** The last published value equals the current `enabled()`. */
  predicate InSync(s: State) {
    s.prevEnable == Enabled(s)
  }

  /** `Fault` and `Override` are exactly "some gate of that kind is raised". */
  lemma GatesAggregate(s: State)
    ensures Fault(s) <==> exists k :: s.gates.Get(FaultGate(k))
    ensures Override(s) <==> exists sub :: s.gates.Get(OverrideGate(sub))
  {
    var g := s.gates;
    if Fault(s) {
      var k :=
        if g.Get(FaultGate(BrakeFault)) then BrakeFault
        else if g.Get(FaultGate(AcceleratorPedalFault)) then AcceleratorPedalFault
        else if g.Get(FaultGate(SteeringFault)) then SteeringFault
        else if g.Get(FaultGate(SteeringCalFault)) then SteeringCalFault
        else WatchdogFault;
      assert g.Get(FaultGate(k));
    }
    if exists k :: g.Get(FaultGate(k)) {
      var k :| g.Get(FaultGate(k));
      assert k.BrakeFault? || k.AcceleratorPedalFault? || k.SteeringFault? || k.SteeringCalFault? || k.WatchdogFault?;
    }
    if Override(s) {
      var sub :=
        if g.Get(OverrideGate(Brake)) then Brake
        else if g.Get(OverrideGate(AcceleratorPedal)) then AcceleratorPedal
        else if g.Get(OverrideGate(Steering)) then Steering
        else Gear;
      assert g.Get(OverrideGate(sub));
    }
    if exists sub :: g.Get(OverrideGate(sub)) {
      var sub :| g.Get(OverrideGate(sub));
      assert sub.Brake? || sub.AcceleratorPedal? || sub.Steering? || sub.Gear?;
    }
  }

  /** The state the constructor sets up before its first publication. */
  function Initial(): State {
    State(
      enable := false,
      prevEnable := true,
      gates := Gates({}),
      watchdog := WatchdogLatch(false, false),
      timeouts := Timeouts(Status(false, false), Status(false, false), Status(false, false)),
      gearWarned := false,
      buffers := Buffers(
        BrakeSignals(Unset, Unset, Unset, Unset, Unset),
        AcceleratorPedalSignals(Unset, Unset, Unset, Unset, Unset, Unset),
        SteeringSignals(Unset, Unset, Unset, Unset, Unset, Unset, Unset, Unset, Unset, Unset),
        GearSignals(Unset, Unset, Unset),
        MiscSignals(Unset, Unset, Unset)),
      vin := [])
  }
}
