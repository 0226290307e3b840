/** The dispatch skeleton of `recvCAN`: which inbound frames are dropped,
    which gate setters each report calls and in what order, the gear
    reject latch, and the VIN assembly. Decoding itself belongs to the
    signal-dictionary codec and is represented by the decoded signal values
    a frame carries. */
module Dispatch {
  import opened DbwState
  import opened Events
  import opened Arbitration

  /** The inbound signals whose values steer the state machine. */
  datatype ReportSignal =
    | BrakeFaultCh1           // DBW_BrakeFault_Ch1
    | BrakeFaultCh2           // DBW_BrakeFault_Ch2
    | BrakeSystemFault        // DBW_BrakeFault
    | BrakeDriverActivity     // DBW_BrakeDriverActivity
    | AccelPdlFaultCh1        // DBW_AccelPdlFault_Ch1
    | AccelPdlFaultCh2        // DBW_AccelPdlFault_Ch2
    | AccelPdlSystemFault     // DBW_AccelPdlFault
    | AccelPdlDriverActivity  // DBW_AccelPdlDriverActivity
    | SteeringSystemFault     // DBW_SteeringFault
    | SteeringDriverActivity  // DBW_SteeringDriverActivity
    | PrndDriverActivity      // DBW_PrndDriverActivity
    | PrndStateReject         // DBW_PrndStateReject
    | VinMultiplexor          // DBW_VinMultiplexor
    | VinDigit(position: nat) // DBW_VinDigit_01, DBW_VinDigit_02, ...

  /** What the identifier of an inbound frame selects. */
  datatype FrameId =
    | Report(kind: ReportKind)
    | VinFragmentId
    | ForeignCommand(message: CommandMessage)  // another node commanding the vehicle
    | Unrecognised(raw: int)

  /** An inbound frame with its decoded signal values; a signal the frame
      does not carry reads as 0. */
  datatype CanFrame = CanFrame(
    id: FrameId, isRtr: bool, isError: bool, dlc: int, signals: map<ReportSignal, int>)

  function Read(f: CanFrame, sig: ReportSignal): int {
    if sig in f.signals then f.signals[sig] else 0
  }

  /** A signal read as a flag: any nonzero value is true. */
  predicate IsSet(f: CanFrame, sig: ReportSignal) {
    Read(f, sig) != 0
  }

  /** Multiplexor values of the three VIN fragments. */
  const VinMux0: int := 0
  const VinMux1: int := 1
  const VinMux2: int := 2

  /** What every inbound frame keeps: it sends no command frame, leaves the
      command buffers and the timeout feedback alone, never sets the enable
      flag, keeps the watchdog's braking status, and publishes only changes
      of the enabled flag. */
  predicate Inbound(s: State, r: Transition) {
    && r.next.buffers == s.buffers
    && r.next.timeouts == s.timeouts
    && (r.next.enable ==> s.enable)
    && r.next.watchdog.usingBrakes == s.watchdog.usingBrakes
    && (forall e :: e in r.events ==> !e.FrameSent?)
    && PublishesChangesOnly(s, r)
  }

  /** Two inbound steps in a row are one inbound step. */
  lemma InboundChain(s: State, t1: Transition, t2: Transition)
    requires Inbound(s, t1) && Inbound(t1.next, t2)
    ensures Inbound(s, Transition(t2.next, t1.events + t2.events))
  {
    ChainPublications(s, t1, t2);
  }

  /** A gate setter or a watchdog report is an inbound step. */
  lemma GatingIsInbound(s: State, r: Transition)
    requires forall e :: e in r.events ==> GatingEvent(e)
    requires r.next.(enable := s.enable, prevEnable := s.prevEnable, gates := s.gates, watchdog := s.watchdog) == s
    requires r.next.enable ==> s.enable
    requires r.next.watchdog.usingBrakes == s.watchdog.usingBrakes
    requires PublishesChangesOnly(s, r)
    ensures Inbound(s, r)
  {
  }

  /** `t1` followed by `t2`, both gate updates. */
  function Then(s: State, t1: Transition, t2: Transition): (r: Transition)
    requires Inbound(s, t1) && Inbound(t1.next, t2)
    requires forall e :: e in t1.events ==> GatingEvent(e)
    requires forall e :: e in t2.events ==> GatingEvent(e)
    ensures r.next == t2.next
    ensures forall e :: e in r.events ==> GatingEvent(e)
    ensures Inbound(s, r)
  {
    InboundChain(s, t1, t2);
    GatingChain(t1.events, t2.events);
    Transition(t2.next, t1.events + t2.events)
  }

  /** A gate setter, as an inbound step. */
  function GateStep(s: State, g: Gate, value: bool): (r: Transition)
    ensures r == ApplyGate(s, g, value)
    ensures forall e :: e in r.events ==> GatingEvent(e)
    ensures Inbound(s, r)
  {
    var r := ApplyGate(s, g, value);
    GatingIsInbound(s, r);
    r
  }

  /** The watchdog fed by a report, as an inbound step. */
  function FeedWatchdog(s: State, systemFault: bool): (r: Transition)
    ensures r == FaultWatchdogKeepBraking(s, systemFault, if systemFault then 1 else 0)
    ensures forall e :: e in r.events ==> GatingEvent(e)
    ensures Inbound(s, r)
  {
    var r := FaultWatchdogKeepBraking(s, systemFault, if systemFault then 1 else 0);
    GatingIsInbound(s, r);
    r
  }

  /** The flags after the fault updates of a subsystem report. */
  function FaultFlags(g: Gates, fk: FaultKind, fault: bool, watchdog: bool, systemFault: bool): Gates {
    if watchdog then g.Set(FaultGate(fk), fault).Set(FaultGate(WatchdogFault), systemFault)
    else g.Set(FaultGate(fk), fault)
  }

  /** The fault updates of a subsystem report: its own fault flag, then
      (for brake and accelerator) the watchdog through the overload that
      keeps the stored braking status, with the subsystem's system-fault
      bit as both fault and source. */
  function ReportFaults(s: State, fk: FaultKind, fault: bool, watchdog: bool, systemFault: bool): (r: Transition)
    ensures r.next.gates == FaultFlags(s.gates, fk, fault, watchdog, systemFault)
    ensures r.next.gearWarned == s.gearWarned && r.next.vin == s.vin
    ensures !watchdog ==> r.next.watchdog == s.watchdog
    ensures watchdog && !systemFault ==> !r.next.watchdog.warned
    ensures InSync(r.next)
    ensures forall e :: e in r.events ==> GatingEvent(e)
    ensures Inbound(s, r)
  {
    var t1 := GateStep(s, FaultGate(fk), fault);
    if watchdog then Then(s, t1, FeedWatchdog(t1.next, systemFault)) else t1
  }

  /** The gate updates a subsystem report makes, in the order the source
      makes them: the fault updates, then its override flag. */
  function SubsystemGates(s: State, fk: FaultKind, fault: bool, watchdog: bool, systemFault: bool,
                          sub: Subsystem, active: bool): (r: Transition)
    ensures r.next.gates == FaultFlags(s.gates, fk, fault, watchdog, systemFault).Set(OverrideGate(sub), active)
    ensures r.next.gearWarned == s.gearWarned && r.next.vin == s.vin
    ensures !watchdog ==> r.next.watchdog == s.watchdog
    ensures InSync(r.next)
    ensures forall e :: e in r.events ==> GatingEvent(e)
    ensures Inbound(s, r)
  {
    var t1 := ReportFaults(s, fk, fault, watchdog, systemFault);
    Then(s, t1, GateStep(t1.next, OverrideGate(sub), active))
  }

  /** A subsystem report revokes the enable exactly as its setters do: a
      raised fault, watchdog fault or driver activity while enabled clears
      the enable flag, the flag is cleared for no other reason, and a raised
      one leaves the system not enabled. */
  lemma SubsystemGatesRevoke(s: State, fk: FaultKind, fault: bool, watchdog: bool, systemFault: bool,
                             sub: Subsystem, active: bool)
    requires fk != WatchdogFault
    ensures var r := SubsystemGates(s, fk, fault, watchdog, systemFault, sub, active);
      var raised := fault || (watchdog && systemFault) || active;
      && (Enabled(s) && raised ==> !r.next.enable)
      && (s.enable && !r.next.enable ==> raised)
      && (raised ==> !Enabled(r.next))
  {
    var t1 := ApplyGate(s, FaultGate(fk), fault);
    var t2 := if watchdog then FaultWatchdogKeepBraking(t1.next, systemFault, if systemFault then 1 else 0)
              else t1;
    var t3 := ApplyGate(t2.next, OverrideGate(sub), active);
    assert SubsystemGates(s, fk, fault, watchdog, systemFault, sub, active).next == t3.next;
    if active {
      assert t3.next.gates.Get(OverrideGate(sub));
    } else if watchdog && systemFault {
      assert t2.next.gates.Get(FaultGate(WatchdogFault));
      assert t3.next.gates.Get(FaultGate(WatchdogFault));
    } else if fault {
      assert t1.next.gates.Get(FaultGate(fk));
      assert t2.next.gates.Get(FaultGate(fk));
      assert t3.next.gates.Get(FaultGate(fk));
    }
  }

  /** The events a report adds after its gate updates. */
  predicate ReportEvent(e: Event) {
    || e.ReportPublished?
    || (e.Warn? && (e.diagnostic.SubsystemFault? || e.diagnostic.GearRejected?))
  }

  /** Appending report events to an inbound gate step keeps it inbound,
      and the report events of the whole are exactly those appended. */
  lemma ReportTailed(s: State, t: Transition, next: State, tail: seq<Event>)
    requires Inbound(s, t)
    requires forall e :: e in t.events ==> GatingEvent(e)
    requires forall e :: e in tail ==> ReportEvent(e)
    requires next.(gearWarned := t.next.gearWarned) == t.next
    ensures Inbound(s, Transition(next, t.events + tail))
    ensures forall e :: ReportEvent(e) ==> (e in t.events + tail <==> e in tail)
  {
    ExtendQuietly(s, t, next, tail);
  }

  /** The report a subsystem publishes after its gate updates `t`, then
      (when `warn`) the subsystem's fault warning. */
  function AppendReport(s: State, t: Transition, sub: Subsystem, kind: ReportKind, warn: bool): (r: Transition)
    requires Inbound(s, t)
    requires forall e :: e in t.events ==> GatingEvent(e)
    ensures r.next == t.next
    ensures ReportPublished(kind) in r.events
    ensures forall k :: ReportPublished(k) in r.events ==> k == kind
    ensures Warn(SubsystemFault(sub)) in r.events <==> warn
    ensures Inbound(s, r)
  {
    var tail := [ReportPublished(kind)] + (if warn then [Warn(SubsystemFault(sub))] else []);
    ReportTailed(s, t, t.next, tail);
    Transition(t.next, t.events + tail)
  }

  /** A full-length brake, accelerator or steering report: the gate
      updates, then the report and its warning. */
  function SubsystemReport(s: State, fk: FaultKind, fault: bool, watchdog: bool, systemFault: bool,
                           sub: Subsystem, active: bool, kind: ReportKind, warn: bool): (r: Transition)
    ensures r.next == SubsystemGates(s, fk, fault, watchdog, systemFault, sub, active).next
    ensures ReportPublished(kind) in r.events
    ensures forall k :: ReportPublished(k) in r.events ==> k == kind
    ensures Warn(SubsystemFault(sub)) in r.events <==> warn
    ensures Inbound(s, r)
  {
    AppendReport(s, SubsystemGates(s, fk, fault, watchdog, systemFault, sub, active), sub, kind, warn)
  }

  /** The brake report (full length): the brake fault needs both channels;
      the watchdog is fed the brake system fault; the override follows
      driver activity; the report is published, then a fault warning if
      either channel is faulted. */
  function BrakeReportFrame(s: State, f: CanFrame): (r: Transition)
    ensures r.next.gates.Get(FaultGate(BrakeFault)) == (IsSet(f, BrakeFaultCh1) && IsSet(f, BrakeFaultCh2))
    ensures r.next.gates.Get(FaultGate(WatchdogFault)) == IsSet(f, BrakeSystemFault)
    ensures r.next.gates.Get(OverrideGate(Brake)) == IsSet(f, BrakeDriverActivity)
    ensures Warn(SubsystemFault(Brake)) in r.events <==> IsSet(f, BrakeFaultCh1) || IsSet(f, BrakeFaultCh2)
  {
    var ch1 := IsSet(f, BrakeFaultCh1);
    var ch2 := IsSet(f, BrakeFaultCh2);
    SubsystemReport(s, BrakeFault, ch1 && ch2, true, IsSet(f, BrakeSystemFault),
                    Brake, IsSet(f, BrakeDriverActivity), BrakeReport, ch1 || ch2)
  }

  /** The accelerator pedal report (full length), in the brake's pattern. */
  function AcceleratorPedalReportFrame(s: State, f: CanFrame): (r: Transition)
    ensures r.next.gates.Get(FaultGate(AcceleratorPedalFault)) == (IsSet(f, AccelPdlFaultCh1) && IsSet(f, AccelPdlFaultCh2))
    ensures r.next.gates.Get(FaultGate(WatchdogFault)) == IsSet(f, AccelPdlSystemFault)
    ensures r.next.gates.Get(OverrideGate(AcceleratorPedal)) == IsSet(f, AccelPdlDriverActivity)
    ensures Warn(SubsystemFault(AcceleratorPedal)) in r.events
        <==> IsSet(f, AccelPdlFaultCh1) || IsSet(f, AccelPdlFaultCh2)
  {
    var ch1 := IsSet(f, AccelPdlFaultCh1);
    var ch2 := IsSet(f, AccelPdlFaultCh2);
    SubsystemReport(s, AcceleratorPedalFault, ch1 && ch2, true, IsSet(f, AccelPdlSystemFault),
                    AcceleratorPedal, IsSet(f, AccelPdlDriverActivity), AcceleratorPedalReport, ch1 || ch2)
  }

  /** The steering report (full length): the steering fault, then the
      override; the watchdog is not fed. */
  function SteeringReportFrame(s: State, f: CanFrame): (r: Transition)
    ensures r.next.gates.Get(FaultGate(SteeringFault)) == IsSet(f, SteeringSystemFault)
    ensures r.next.gates.Get(OverrideGate(Steering)) == IsSet(f, SteeringDriverActivity)
    ensures r.next.gates.Get(FaultGate(WatchdogFault)) == s.gates.Get(FaultGate(WatchdogFault))
    ensures r.next.watchdog == s.watchdog
    ensures Warn(SubsystemFault(Steering)) in r.events <==> IsSet(f, SteeringSystemFault)
  {
    var fault := IsSet(f, SteeringSystemFault);
    SubsystemReport(s, SteeringFault, fault, false, false, Steering, IsSet(f, SteeringDriverActivity),
                    SteeringReport, fault)
  }

  /** The gear report's events after its override update `t`: the reject
      latch moves only on a full-length frame, and a reject warns once per
      episode, only while the latch is clear. */
  function GearTail(s: State, t: Transition, f: CanFrame, full: bool): (r: Transition)
    requires Inbound(s, t)
    requires forall e :: e in t.events ==> GatingEvent(e)
    ensures r.next == t.next.(gearWarned := if full then IsSet(f, PrndStateReject) else t.next.gearWarned)
    ensures Warn(GearRejected) in r.events <==> full && IsSet(f, PrndStateReject) && !t.next.gearWarned
    ensures ReportPublished(GearReport) in r.events
    ensures forall k :: ReportPublished(k) in r.events ==> k == GearReport
    ensures Inbound(s, r)
  {
    var reject := IsSet(f, PrndStateReject);
    var warn := full && reject && !t.next.gearWarned;
    var latched := if !full then t.next.gearWarned else reject;
    var tail := (if warn then [Warn(GearRejected)] else []) + [ReportPublished(GearReport)];
    ReportTailed(s, t, t.next.(gearWarned := latched), tail);
    Transition(t.next.(gearWarned := latched), t.events + tail)
  }

  /** The gear report (at least one byte): the override always; the reject
      latch only when the frame has its full length. */
  function GearReportFrame(s: State, f: CanFrame, full: bool): (r: Transition)
    ensures r.next.gates == s.gates.Set(OverrideGate(Gear), IsSet(f, PrndDriverActivity))
    ensures r.next.gearWarned == if full then IsSet(f, PrndStateReject) else s.gearWarned
    ensures r.next.vin == s.vin
    ensures Warn(GearRejected) in r.events <==> full && IsSet(f, PrndStateReject) && !s.gearWarned
    ensures ReportPublished(GearReport) in r.events
    ensures forall k :: ReportPublished(k) in r.events ==> k == GearReport
    ensures InSync(r.next)
    ensures Inbound(s, r)
  {
    GearTail(s, GateStep(s, OverrideGate(Gear), IsSet(f, PrndDriverActivity)), f, full)
  }

  /** A gear reject is announced once per episode: after a full-length
      report with a reject, no later report warns until a full-length report
      without one re-arms the latch, after which the next reject warns. */
  lemma GearRejectOncePerEpisode(s: State, f1: CanFrame, f2: CanFrame, full2: bool, f3: CanFrame, f4: CanFrame)
    requires IsSet(f1, PrndStateReject) && !IsSet(f3, PrndStateReject) && IsSet(f4, PrndStateReject)
    ensures var r1 := GearReportFrame(s, f1, true);
      var r2 := GearReportFrame(r1.next, f2, full2);
      && Warn(GearRejected) !in r2.events
      && Warn(GearRejected) in GearReportFrame(GearReportFrame(r1.next, f3, true).next, f4, true).events
  {
  }

  /** `count` copies of `x`. */
  function Repeat(x: int, count: nat): (r: seq<int>)
    ensures |r| == count
    ensures forall i :: 0 <= i < count ==> r[i] == x
  {
    seq(count, _ => x)
  }

  /** The first `count` VIN digit signals of `f`, in position order. */
  function VinDigits(f: CanFrame, count: nat): (r: seq<int>)
    ensures |r| == count
    ensures forall i :: 0 <= i < count ==> r[i] == Read(f, VinDigit(i + 1))
  {
    seq(count, (i: nat) => Read(f, VinDigit(i + 1)))
  }

  /** VIN accumulation: fragments 0 and 1 append a seven-character group,
      fragment 2 appends a three-character group and publishes the whole
      accumulated VIN; any other multiplexor value is ignored. */
  function AppendVin(s: State, mux: int, group7: seq<int>, group3: seq<int>): (r: Transition)
    requires |group7| == 7 && |group3| == 3
    ensures r.next.(vin := s.vin) == s
    ensures mux == VinMux0 || mux == VinMux1 ==> r.next.vin == s.vin + group7 && r.events == []
    ensures mux == VinMux2 ==> r.next.vin == s.vin + group3 && r.events == [VinPublished(r.next.vin)]
    ensures mux != VinMux0 && mux != VinMux1 && mux != VinMux2 ==> r == Transition(s, [])
  {
    if mux == VinMux0 || mux == VinMux1 then Transition(s.(vin := s.vin + group7), [])
    else if mux == VinMux2 then Transition(s.(vin := s.vin + group3), [VinPublished(s.vin + group3)])
    else Transition(s, [])
  }

  /** A VIN fragment as written: every character pushed is the first digit
      signal, read again for each position. */
  function VinFragmentAsWritten(s: State, f: CanFrame): (r: Transition)
    ensures r.next.(vin := s.vin) == s
    ensures |s.vin| <= |r.next.vin| && r.next.vin[..|s.vin|] == s.vin
    ensures forall i :: |s.vin| <= i < |r.next.vin| ==> r.next.vin[i] == Read(f, VinDigit(1))
    ensures Read(f, VinMultiplexor) == VinMux0 || Read(f, VinMultiplexor) == VinMux1 ==>
              |r.next.vin| == |s.vin| + 7 && r.events == []
    ensures Read(f, VinMultiplexor) == VinMux2 ==>
              |r.next.vin| == |s.vin| + 3 && r.events == [VinPublished(r.next.vin)]
    ensures Read(f, VinMultiplexor) !in {VinMux0, VinMux1, VinMux2} ==> r == Transition(s, [])
    ensures forall e :: e in r.events ==> e.VinPublished?
  {
    var d := Read(f, VinDigit(1));
    AppendVin(s, Read(f, VinMultiplexor), Repeat(d, 7), Repeat(d, 3))
  }

  /** A VIN fragment with each position read from its own digit signal. */
  function VinFragment(s: State, f: CanFrame): (r: Transition)
    ensures r.next.(vin := s.vin) == s
    ensures Read(f, VinMultiplexor) == VinMux0 || Read(f, VinMultiplexor) == VinMux1 ==>
              r.next.vin == s.vin + VinDigits(f, 7) && r.events == []
    ensures Read(f, VinMultiplexor) == VinMux2 ==>
              r.next.vin == s.vin + VinDigits(f, 3) && r.events == [VinPublished(r.next.vin)]
    ensures Read(f, VinMultiplexor) !in {VinMux0, VinMux1, VinMux2} ==> r == Transition(s, [])
    ensures forall e :: e in r.events ==> e.VinPublished?
  {
    AppendVin(s, Read(f, VinMultiplexor), VinDigits(f, 7), VinDigits(f, 3))
  }

  /** The three fragments, in multiplexor order on an empty accumulator,
      publish the seventeen digits in position order. */
  lemma VinAssembly(s: State, f0: CanFrame, f1: CanFrame, f2: CanFrame)
    requires s.vin == []
    requires Read(f0, VinMultiplexor) == VinMux0
    requires Read(f1, VinMultiplexor) == VinMux1
    requires Read(f2, VinMultiplexor) == VinMux2
    ensures var t0 := VinFragment(s, f0);
      var t1 := VinFragment(t0.next, f1);
      var t2 := VinFragment(t1.next, f2);
      && t0.events == [] && t1.events == []
      && t2.events == [VinPublished(VinDigits(f0, 7) + VinDigits(f1, 7) + VinDigits(f2, 3))]
      && |t2.next.vin| == 17
  {
    var t0 := VinFragment(s, f0);
    var t1 := VinFragment(t0.next, f1);
    assert t0.next.vin == VinDigits(f0, 7);
    assert t1.next.vin == VinDigits(f0, 7) + VinDigits(f1, 7);
  }

  /** A fragment whose seven digit signals differ. */
  const SampleVinFrame: CanFrame :=
    CanFrame(VinFragmentId, false, false, 8,
             map[VinMultiplexor := VinMux0, VinDigit(1) := 49, VinDigit(2) := 50])

  /** As written, a fragment with different first and second digits is
      accumulated wrongly: the second character is the first digit again. */
  lemma VinAsWrittenRepeatsFirstDigit(s: State)
    ensures VinFragmentAsWritten(s, SampleVinFrame).next.vin[|s.vin| + 1] == 49
    ensures VinFragment(s, SampleVinFrame).next.vin[|s.vin| + 1] == 50
  {
    assert Read(SampleVinFrame, VinMultiplexor) == VinMux0;
    var w := VinFragmentAsWritten(s, SampleVinFrame).next.vin;
    assert |w| == |s.vin| + 7;
    var c := VinFragment(s, SampleVinFrame).next.vin;
    assert c == s.vin + VinDigits(SampleVinFrame, 7);
    assert c[|s.vin| + 1] == VinDigits(SampleVinFrame, 7)[1] == Read(SampleVinFrame, VinDigit(2));
  }

  /** `recvCAN`. `expected` gives the length the codec expects for each
      identifier. Remote and error frames are dropped; a report shorter
      than expected is dropped (the gear report only when empty); foreign
      command frames and unknown identifiers do nothing. A VIN fragment is
      read as written, or with each digit from its own signal when
      `corrected`. */
  function RecvCan(s: State, f: CanFrame, expected: FrameId -> nat, corrected: bool): (r: Transition)
    ensures f.isRtr || f.isError ==> r == Transition(s, [])
    ensures f.id.Report? && f.id.kind != GearReport && f.dlc < expected(f.id) ==> r == Transition(s, [])
    ensures f.id == Report(GearReport) && f.dlc < 1 ==> r == Transition(s, [])
    ensures f.id.VinFragmentId? && f.dlc < expected(f.id) ==> r == Transition(s, [])
    ensures f.id.ForeignCommand? || f.id.Unrecognised? ==> r == Transition(s, [])
    ensures Accepted(f) && f.id == Report(BrakeReport) && f.dlc >= expected(f.id) ==>
              r == BrakeReportFrame(s, f)
    ensures Accepted(f) && f.id == Report(AcceleratorPedalReport) && f.dlc >= expected(f.id) ==>
              r == AcceleratorPedalReportFrame(s, f)
    ensures Accepted(f) && f.id == Report(SteeringReport) && f.dlc >= expected(f.id) ==>
              r == SteeringReportFrame(s, f)
    ensures Accepted(f) && f.id == Report(GearReport) && f.dlc >= 1 ==>
              r == GearReportFrame(s, f, f.dlc >= expected(f.id))
    ensures Accepted(f) && f.id.Report? && !GatingReport(f.id.kind) && f.dlc >= expected(f.id) ==>
              r == Transition(s, [ReportPublished(f.id.kind)])
    ensures Accepted(f) && f.id.VinFragmentId? && f.dlc >= expected(f.id) ==>
              r == if corrected then VinFragment(s, f) else VinFragmentAsWritten(s, f)
    ensures forall k :: ReportPublished(k) in r.events <==>
              && !f.isRtr && !f.isError && f.id == Report(k)
              && f.dlc >= (if k == GearReport then 1 else expected(f.id))
    ensures InSync(s) ==> InSync(r.next)
    ensures Inbound(s, r)
  {
    if f.isRtr || f.isError then Transition(s, [])
    else
      match f.id
      case Report(k) => RecvReport(s, f, k, expected(f.id))
      case VinFragmentId =>
        if f.dlc < expected(f.id) then Transition(s, []) else QuietVin(s, f, corrected)
      case ForeignCommand(_) => Transition(s, [])
      case Unrecognised(_) => Transition(s, [])
  }

  /** A frame that is neither remote nor an error frame. */
  predicate Accepted(f: CanFrame) {
    !f.isRtr && !f.isError
  }

  /** The reports whose handlers call the fault and override setters. */
  predicate GatingReport(k: ReportKind) {
    k in {BrakeReport, AcceleratorPedalReport, SteeringReport, GearReport}
  }

  /** A report frame of kind `k`, which the codec expects `len` bytes
      long. */
  function RecvReport(s: State, f: CanFrame, k: ReportKind, len: nat): (r: Transition)
    ensures k != GearReport && f.dlc < len ==> r == Transition(s, [])
    ensures k == GearReport && f.dlc < 1 ==> r == Transition(s, [])
    ensures forall k' :: ReportPublished(k') in r.events <==> k' == k && f.dlc >= (if k == GearReport then 1 else len)
    ensures InSync(s) ==> InSync(r.next)
    ensures Inbound(s, r)
  {
    if k == GearReport then
      if f.dlc >= 1 then GearReportFrame(s, f, f.dlc >= len) else Transition(s, [])
    else if f.dlc < len then Transition(s, [])
    else if k == BrakeReport then BrakeReportFrame(s, f)
    else if k == AcceleratorPedalReport then AcceleratorPedalReportFrame(s, f)
    else if k == SteeringReport then SteeringReportFrame(s, f)
    else
      var r := Transition(s, [ReportPublished(k)]);
      NoPublications(r.events);
      r
  }

  /** The VIN fragment, as written or corrected; it publishes nothing on
      `dbw_enabled`. */
  function QuietVin(s: State, f: CanFrame, corrected: bool): (r: Transition)
    ensures r == if corrected then VinFragment(s, f) else VinFragmentAsWritten(s, f)
    ensures forall k :: ReportPublished(k) !in r.events
    ensures InSync(s) ==> InSync(r.next)
    ensures Inbound(s, r)
  {
    var r := if corrected then VinFragment(s, f) else VinFragmentAsWritten(s, f);
    NoPublications(r.events);
    r
  }
}
