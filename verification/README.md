# Pacifica drive-by-wire node: arbitration, command gating and fail-safe sweep

A Dafny model of the core of `DbwNode`, the ROS node that sits between
autonomy software and a drive-by-wire Pacifica on the CAN bus. It has four parts:

- **Enable state machine.** The node keeps an enable request, four driver-override
  flags, five fault flags and the watchdog latches. It changes them on enable and
  disable requests and on the brake, accelerator-pedal, steering and gear
  reports. It publishes the combined
  `enabled()` flag only when that flag changes.
- **Command gating.** It encodes the five command topics (brake, accelerator
  pedal, steering, gear, misc) into outgoing frames. The enable requests, pedal
  values, steering angle, torque and velocity, gear and turn signal are zeroed
  unless the system is enabled. The misc door toggle request, the ignore, quiet
  and mode flags and the counters are passed through ungated; they are not
  counted as asking the vehicle to act. A clear-override bit is raised whenever
  `clear()` holds.
- **Fail-safe sweep.** Every 20 Hz tick, when `clear()` holds, it resends an
  override-clearing frame with the actuation values zeroed for each subsystem the
  driver has taken over. As written, the steering enable request keeps its
  buffered value (see "## Findings").
- **Inbound dispatch.** This is the `recvCAN` skeleton. Remote and error frames
  are dropped, and so are short frames. The brake, accelerator-pedal and
  steering reports call the fault, watchdog and override setters; the gear
  report calls only the gear override setter; the other reports call none. The
  gear reject warning is latched. The VIN is assembled from three
  fragments.

Everything is a pure function from a `State` to a `Transition(next, events)`.
The events are the observable outputs: publications of `dbw_enabled`, command
frames sent, report topics published, VIN publications and diagnostics.

Files and modules:

- `state.dfy` (`DbwState`) holds the node's state.
  - Gates are the set of raised override and fault flags.
  - The per-message signal buffers persist across calls.
  - The predicates `Fault`, `Override`, `Enabled`, `Clear` and `InSync` are defined here.
- `events.dfy` (`Events`) defines events and transitions. It also states the
  publication discipline: each publication differs from the one before it.
- `arbitration.dfy` (`Arbitration`) holds:
  - `publishDbwEnabled`, `enableSystem`, `disableSystem` and `buttonCancel`;
  - the eight setters, the timeout edge detectors and both `faultWatchdog` overloads.
- `encoder.dfy` (`CommandEncoder`) holds the five `recv*Cmd` encoders.
- `sweep.dfy` (`FailSafe`) holds `timerCallback`, as written and corrected.
- `dispatch.dfy` (`Dispatch`) holds `recvCAN`.
- `node.dfy` (`Node`) holds:
  - the constructor's first publication;
  - one `Step` over every input;
  - a `Run` method that folds steps over an input sequence.

  Both take a flag `corrected`. When it is false they run the node as written.
  When it is true they run the node with the two corrections under "## Findings".

Assumptions about `DbwNode.h`, which is not part of this model:

- `fault()` is the disjunction of the five fault flags.
- `override()` is the disjunction of the four override flags.
- `enabled()` is `enable_ && !fault() && !override()`.
- `clear()` is `enable_ && override()`.
- The VIN multiplexor values `VIN_MUX_VIN0`, `VIN_MUX_VIN1` and `VIN_MUX_VIN2`
  (from `dispatch.h`) are 0, 1 and 2.

`enableSystem` names exactly these five faults. The file also shows `enabled()`
differing from `enable_` ("Waiting for ready"). Both are consistent with these
definitions. The sweep uses `clear()` only to clear an existing override, which
fits the definition above.

## Model

| member | source | states |
|---|---|---|
| Arbitration.PublishDbwEnabled | src/dbw_pacifica_can/src/DbwNode.cpp:794-806 | publishes exactly when `enabled()` differs from the last published value, at most once, and always leaves the shadow equal to `enabled()`; nothing else changes |
| Arbitration.PublishIsIdempotent | src/dbw_pacifica_can/src/DbwNode.cpp:794-806 | a second publication with no state change in between emits nothing |
| Node.Construct | src/dbw_pacifica_can/src/DbwNode.cpp:47-66 | the initial flags (shadow true, enable false) force exactly one publication of `false` at construction |
| Arbitration.EnableSystem | src/dbw_pacifica_can/src/DbwNode.cpp:860-888 | sets enable only when it was clear and no fault is raised; with a fault nothing changes and each raised fault is named; the system becomes enabled iff neither fault nor override holds |
| Arbitration.RefusalReasons | src/dbw_pacifica_can/src/DbwNode.cpp:863-878 | a refusal names a fault iff it is raised, and names nothing else |
| Arbitration.EnableAnnouncement | src/dbw_pacifica_can/src/DbwNode.cpp:879-886 | an accepted enable announces "enabled" and publishes `true` iff no override blocks it, and otherwise announces "waiting for ready" without publishing |
| Arbitration.DisableSystem | src/dbw_pacifica_can/src/DbwNode.cpp:890-897 | leaves enable false; when it already was, does nothing and publishes nothing; otherwise announces the disable and publishes `false` only if `true` was last published |
| Arbitration.ButtonCancel | src/dbw_pacifica_can/src/DbwNode.cpp:899-906 | as the disable request, announced as a cancel press |
| Arbitration.ApplyGate | src/dbw_pacifica_can/src/DbwNode.cpp:908-970 | a setter stores its argument in its own flag only; enable is cleared exactly when the argument is raised while enabled; a raised flag leaves the system not enabled; a lowered one never disables it |
| Arbitration.GateDiagnostics | src/dbw_pacifica_can/src/DbwNode.cpp:999-1061 | under an up-to-date shadow a setter warns "disabled by" this flag iff it revoked the enable, and "enabled" iff it caused the rising edge |
| Arbitration.GateReleaseEnables | src/dbw_pacifica_can/src/DbwNode.cpp:908-970 | lowering the only raised flag with enable requested enables the system and publishes `true` |
| Arbitration.GateIsIdempotent | src/dbw_pacifica_can/src/DbwNode.cpp:908-922 | repeating a setter with the same value changes nothing and emits nothing |
| Arbitration.LowerKeepsEnabled | src/dbw_pacifica_can/src/DbwNode.cpp:999-1061 | lowering a flag never blocks an enabled system |
| Arbitration.Timeout | src/dbw_pacifica_can/src/DbwNode.cpp:972-997 | stores the pair verbatim in its own subsystem only, never touches enable, and warns exactly on the edge from (not timed out, enabled) to (timed out, disabled) |
| Arbitration.TimeoutWarnsOncePerEdge | src/dbw_pacifica_can/src/DbwNode.cpp:972-979 | after a report that says timed out, whatever its enabled bit, the next report of any pair is silent |
| Arbitration.WatchdogEpisode | src/dbw_pacifica_can/src/DbwNode.cpp:1077-1137 | the braking status is stored and its changes announced; `warned` is set on the first faulted report with a cause, cleared by a report without the fault, and kept otherwise |
| Arbitration.FaultWatchdog | src/dbw_pacifica_can/src/DbwNode.cpp:1063-1076 | the gating part acts on the watchdog fault flag as every setter does, followed by the latch update, with the shadow kept in step |
| Arbitration.FaultWatchdogLatches | src/dbw_pacifica_can/src/DbwNode.cpp:1077-1137 | after the watchdog report the braking status equals the argument; `warned` and the cause, braking and reminder diagnostics follow the episode rules |
| Arbitration.FaultWatchdogKeepBraking | src/dbw_pacifica_can/src/DbwNode.cpp:1139-1141 | the two-argument overload keeps the stored braking status and never announces a braking change |
| Arbitration.WatchdogSourceOncePerEpisode | src/dbw_pacifica_can/src/DbwNode.cpp:1082-1130 | within one fault episode the cause is announced at most once |
| Arbitration.WatchdogSourceAfterRecovery | src/dbw_pacifica_can/src/DbwNode.cpp:1082-1133 | a report without the fault re-arms the cause announcement |
| CommandEncoder.RecvBrakeCmd | src/dbw_pacifica_can/src/DbwNode.cpp:619-649 | enable and pedal are zero unless enabled; clear-override is set iff `clear()` or requested; the counter is copied; only the brake buffer changes |
| CommandEncoder.RecvAcceleratorPedalCmd | src/dbw_pacifica_can/src/DbwNode.cpp:651-692 | as the brake encoder, except that the counter is forced to 1 when the control mode is 1 |
| CommandEncoder.AngleSignal | src/dbw_pacifica_can/src/DbwNode.cpp:712-720 | the written angle lies in [-500, 500]; inside the clamp it is the request divided by ten; beyond it, the bound |
| CommandEncoder.VelocitySignal | src/dbw_pacifica_can/src/DbwNode.cpp:722-727 | the written velocity is an integer in [1, 254], within half a unit of the magnitude when that lies inside the range |
| CommandEncoder.SteeringSignalsFor | src/dbw_pacifica_can/src/DbwNode.cpp:694-752 | enabled: the command type, angle or torque, and velocity only when nonzero, with the enable request set; not enabled: angle, torque, velocity and enable zeroed and the command type left as buffered |
| CommandEncoder.RecvSteeringCmd | src/dbw_pacifica_can/src/DbwNode.cpp:694-752 | only the steering buffer changes; the enable request equals `enabled()`; clear-override is set iff `clear()` or requested |
| CommandEncoder.RecvGearCmd | src/dbw_pacifica_can/src/DbwNode.cpp:754-773 | the gear request is zero unless enabled; clear-override is set iff `clear()` or requested |
| CommandEncoder.RecvMiscCmd | src/dbw_pacifica_can/src/DbwNode.cpp:775-792 | the turn signal is zero unless enabled; the door request and counter are copied |
| CommandEncoder.Encode | src/dbw_pacifica_can/src/DbwNode.cpp:619-792 | every request sends one frame of its own message, changes no other buffer and no arbitration state, is neutral while not enabled, asks the vehicle to act only while enabled, and asks to clear the override whenever `clear()` holds; "neutral" and "act" cover the gated signals only, not the ungated door toggle request, ignore, quiet and mode flags |
| CommandEncoder.DoorRequestUngated | src/dbw_pacifica_can/src/DbwNode.cpp:775-792 | while the system is not enabled a misc request still sends its door toggle request unchanged, in a frame that is neutral and does not ask the vehicle to act |
| FailSafe.SweepFrame | src/dbw_pacifica_can/src/DbwNode.cpp:814-857 | a swept frame keeps its message, asks to clear the override, and with the steering enable zeroed is neutral |
| FailSafe.SweepFrameIdempotent | src/dbw_pacifica_can/src/DbwNode.cpp:814-857 | sweeping a buffer twice is sweeping it once |
| FailSafe.SweptMessages | src/dbw_pacifica_can/src/DbwNode.cpp:814-856 | a message is swept iff its subsystem's override is raised; the misc message never is |
| FailSafe.SweepAll | src/dbw_pacifica_can/src/DbwNode.cpp:808-858 | sends the swept frames in order, rewrites exactly those buffers, and publishes nothing |
| FailSafe.TimerCallback | src/dbw_pacifica_can/src/DbwNode.cpp:808-858 | nothing is sent unless `clear()` holds; otherwise one override-clearing frame per raised override, in the order brake, accelerator, steering, gear; the steering enable request keeps its buffered value |
| FailSafe.TimerCallbackCorrected | src/dbw_pacifica_can/src/DbwNode.cpp:836-849 | the same sweep with the steering enable zeroed: every frame is neutral, clears the override and asks the vehicle for nothing |
| Node.SweepResendsSteeringEnable | src/dbw_pacifica_can/src/DbwNode.cpp:836-849 | as written, a sweep with a stored steering enable request sends that request again |
| Node.SweepAsWrittenRequestsControl | src/dbw_pacifica_can/src/DbwNode.cpp:836-849 | a reachable state in which the sweep as written asks the vehicle to steer while the system is not enabled |
| Dispatch.RecvCan | src/dbw_pacifica_can/src/DbwNode.cpp:151-606 | remote, error and short frames, foreign command frames and unknown identifiers change nothing; an accepted brake, accelerator-pedal or steering report is handled by its own report handler, a gear report of at least one byte by the gear handler (full iff it has the codec length), and any other report is only published; an accepted VIN fragment is read as written, or with each digit from its own signal when `corrected`; a report is published iff its frame is accepted; no inbound frame sends a command or sets enable |
| Dispatch.RecvReport | src/dbw_pacifica_can/src/DbwNode.cpp:156-160 | a report shorter than its codec length is dropped; a gear report is dropped only when empty |
| Dispatch.ReportFaults | src/dbw_pacifica_can/src/DbwNode.cpp:170-172 | a report sets its own fault flag, then the watchdog flag through the overload that keeps the braking status |
| Dispatch.SubsystemGates | src/dbw_pacifica_can/src/DbwNode.cpp:170-174 | the flags after a subsystem report are its fault flags and its override flag, with the shadow in step |
| Dispatch.SubsystemGatesRevoke | src/dbw_pacifica_can/src/DbwNode.cpp:170-174 | a report clears enable while enabled iff it raises a fault, the watchdog fault or driver activity, and a raised one leaves the system not enabled |
| Dispatch.BrakeReportFrame | src/dbw_pacifica_can/src/DbwNode.cpp:156-206 | the brake fault needs both channels; the watchdog follows the brake system fault; the override follows driver activity; the fault warning fires iff either channel is faulted |
| Dispatch.AcceleratorPedalReportFrame | src/dbw_pacifica_can/src/DbwNode.cpp:208-255 | as the brake report, for the accelerator pedal |
| Dispatch.SteeringReportFrame | src/dbw_pacifica_can/src/DbwNode.cpp:257-298 | the steering fault and override follow the report; the watchdog is untouched; the warning fires iff the fault is set |
| Dispatch.GearReportFrame | src/dbw_pacifica_can/src/DbwNode.cpp:301-346 | the override always follows driver activity; the reject latch moves only on a full-length frame; a reject warns only while the latch is clear |
| Dispatch.GearRejectOncePerEpisode | src/dbw_pacifica_can/src/DbwNode.cpp:320-326 | a gear reject warns once per episode, and a full report without a reject re-arms it |
| Dispatch.VinFragmentAsWritten | src/dbw_pacifica_can/src/DbwNode.cpp:455-478 | as written, every character appended is the first digit signal |
| Dispatch.VinAsWrittenRepeatsFirstDigit | src/dbw_pacifica_can/src/DbwNode.cpp:455-462 | a fragment with distinct first and second digits gets its second character wrong as written, and right when corrected |
| Dispatch.VinFragment | src/dbw_pacifica_can/src/DbwNode.cpp:447-478 | fragments 0 and 1 append seven digits in position order, fragment 2 appends three and publishes the whole VIN, and any other multiplexor value is ignored |
| Dispatch.VinAssembly | src/dbw_pacifica_can/src/DbwNode.cpp:455-478 | the three fragments on an empty accumulator publish the seventeen digits in order, and only at the last |
| Node.Step | src/dbw_pacifica_can/src/DbwNode.cpp:141-149 | every input publishes only changes of the flag and keeps the shadow in step; only an enable request can set enable; as written, a frame that asks the vehicle to act comes from a command while enabled or from a sweep while `clear()` holds; corrected, only from a command while enabled |
| Node.StepAsWrittenRequestsControl | src/dbw_pacifica_can/src/DbwNode.cpp:808-858 | in a state that sweeps a stored steering enable request (Node.SweepAsWrittenRequestsControl shows one is reachable) the timer step as written asks the vehicle to steer while not enabled, so the sweep case of the step's contract is needed |
| Node.Run | src/dbw_pacifica_can/src/DbwNode.cpp:794-806 | as written or corrected, over any input sequence the publications alternate, the last one equals the final `enabled()`, and a node that starts disabled and gets no enable request never asks the vehicle to act through a gated signal (the door toggle request is ungated and not counted) |
| DbwState.GatesAggregate | src/dbw_pacifica_can/src/DbwNode.cpp:863-878 | `fault()` and `override()` hold exactly when some flag of that kind is raised |

## Left out

- ROS wiring: parameter loading, advertising, subscribing, the timer and the frame
  publisher (`DbwNode.cpp:42-135`). The model starts from the state these leave.
- The signal-dictionary codec. A decoded frame is a map from the signals the model
  reads to integers (absent reads 0). An outgoing frame is the per-message record
  of signal values; `Unset` marks a signal never written. Codec lengths are a
  parameter of `RecvCan`.
- Field-copy report branches, with no state-machine calls: wheel speed and
  position, tire pressure, surround, IMU, driver input, misc report, low
  voltage. The contents of the report messages are left out too; the model keeps
  the fact that a report is published.
- `publishJointStates` and the report unit conversions: floating-point
  trigonometry.
- Steering unit conversion: the angle and velocity requests are taken already
  scaled, so only the clamps, the division by ten and the rounding are modelled.
  Values are reals, not 32-bit floats.
- Diagnostic text and the time-based throttling: a throttled warning is a `Warn`
  event each time.
- The one-argument `faultWatchdog` call and the undeclared variables in the
  reports (`watchdog_status` at `DbwNode.cpp:182` and `:240`; `:269`, `:281`,
  `:289-291` in the steering report) do not compile as shown. The steering report is modelled without the watchdog call, keeping its
  fault and override calls.
- Dispatch.GearReportFrame: any reject warns with one `GearRejected` event. The source reads the reject flag as 0 or 1, and 0 takes the reset branch, so at most the one reason text whose constant is 1 can be printed (the constants are defined outside this file).
- Arbitration.WatchdogEpisode: every nonzero cause is announced with a `WatchdogSource` event. The source prints only for the causes its switch lists, and sets `warned` for any nonzero cause. Reports in this file pass only 0 or 1.
- Dispatch.VinFragment: appends the digit values as integers. The source pushes each one onto a string, which truncates it to a character.
- Dispatch.VinFragmentAsWritten: appends the digit value as an integer in the same way, without the truncation to a character.
- `buttonCancel`, the three `timeout*` setters and `faultSteeringCal` are never
  called inside this file. They are modelled as operations but not wired into
  `Node.Step`, which therefore never raises the steering calibration fault.
- Concurrency: the node's callbacks are taken to run one at a time.

## Findings

| source | as written | input that shows it | evidently intended | confidence | as-written member | corrected member |
|---|---|---|---|---|---|---|
| src/dbw_pacifica_can/src/DbwNode.cpp:836-849 | the steering sweep zeroes angle, torque, velocity and the rest but never writes the steering enable request, so a stale enable of 1 is resent | enable; a steering command while enabled (enable request 1); driver steering override (revokes enable); enable again (accepted, waiting); the next tick resends enable 1 while not enabled | zero the steering enable like the brake and accelerator enables, so that every swept frame is neutral | medium, not executed | Node.SweepResendsSteeringEnable | FailSafe.TimerCallbackCorrected |
| src/dbw_pacifica_can/src/DbwNode.cpp:455-478 | every VIN character pushed reads `DBW_VinDigit_01` | a fragment with multiplexor 0 and digits 1 and 2 of `'1'` and `'2'`: the second character comes out `'1'` | push digit signals 01 to 07 (01 to 03 for the last fragment) in position order | high, not executed | Dispatch.VinAsWrittenRepeatsFirstDigit | Dispatch.VinAssembly |
