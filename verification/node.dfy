/** The node as a whole: its construction, and the inputs that drive it
    (the enable and disable topics, inbound CAN frames, command topics and
    the 20 Hz timer), composed into one step and folded over a run. */
module Node {
  import opened DbwState
  import opened Events
  import opened Arbitration
  import opened CommandEncoder
  import opened FailSafe
  import opened Dispatch

  /** One input the node reacts to. */
  datatype Input =
    | EnableRequest
    | DisableRequest
    | CanInput(frame: CanFrame)
    | CommandInput(request: Request)
    | Tick

  /** The constructor's effect: the initial state, then the first
      publication of the enabled flag. */
  function Construct(): (r: Transition)
    ensures !r.next.enable && r.next.gates == Gates({})
    ensures InSync(r.next)
    ensures r.events == [EnabledPublished(false)]
  {
    PublishDbwEnabled(Initial())
  }

  /** The node's reaction to one input. With `corrected` false this is the
      node as written; with it true the timer sweep also zeroes the steering
      enable request and VIN fragments read each digit from its own signal.
      As written, a frame that asks the vehicle to act comes from a command
      while enabled or from a sweep while `clear()` holds; corrected, only
      from a command while enabled. */
  function Step(s: State, i: Input, expected: FrameId -> nat, corrected: bool): (r: Transition)
    ensures PublishesChangesOnly(s, r)
    ensures InSync(s) ==> InSync(r.next)
    ensures !i.EnableRequest? ==> (r.next.enable ==> s.enable)
    ensures !i.CommandInput? && !i.Tick? ==> forall e :: e in r.events ==> !e.FrameSent?
    ensures forall e :: e in r.events && e.FrameSent? && RequestsControl(e.frame) ==>
              (i.CommandInput? && Enabled(s)) || (!corrected && i.Tick? && Clear(s))
    ensures corrected ==> forall e :: e in r.events && e.FrameSent? && RequestsControl(e.frame) ==>
              i.CommandInput? && Enabled(s)
  {
    match i
    case EnableRequest => EnableSystem(s)
    case DisableRequest => DisableSystem(s)
    case CanInput(f) => RecvCan(s, f, expected, corrected)
    case CommandInput(req) =>
      var r := CommandStep(s, req);
      BuffersOnly(s, r);
      r
    case Tick =>
      var r := TickStep(s, corrected);
      BuffersOnly(s, r);
      r
  }

  /** A command request: one frame, which asks the vehicle to act only
      while enabled, and no change to the arbitration state. */
  function CommandStep(s: State, req: Request): (r: Transition)
    ensures r.next.(buffers := s.buffers) == s
    ensures Publications(r.events) == []
    ensures forall e :: e in r.events && e.FrameSent? && RequestsControl(e.frame) ==> Enabled(s)
  {
    var r := Encode(s, req);
    NoPublications(r.events);
    r
  }

  /** The timer: the sweep as written, or the one that also zeroes the
      steering enable request, whose frames never ask the vehicle to act.
      Either sends nothing unless `clear()` holds. */
  function TickStep(s: State, corrected: bool): (r: Transition)
    ensures r.next.(buffers := s.buffers) == s
    ensures Publications(r.events) == []
    ensures !Clear(s) ==> r.events == []
    ensures corrected ==> forall e :: e in r.events && e.FrameSent? ==> !RequestsControl(e.frame)
  {
    if corrected then TimerCallbackCorrected(s) else TimerCallback(s)
  }

  /** A step that only rewrites command buffers keeps the published flag
      in step. */
  lemma BuffersOnly(s: State, r: Transition)
    requires r.next.(buffers := s.buffers) == s
    requires Publications(r.events) == []
    ensures PublishesChangesOnly(s, r)
    ensures InSync(s) ==> InSync(r.next)
    ensures r.next.enable == s.enable
  {
  }

  /** Runs the node on `inputs` from `s`, returning the final state and
      every event in order. The enabled flag is published only on change,
      the last publication is the final `enabled()`, and without an enable
      request a node that starts disabled never asks the vehicle to act,
      as written or corrected. */
  method Run(s: State, inputs: seq<Input>, expected: FrameId -> nat, corrected: bool) returns (final: State, events: seq<Event>)
    requires InSync(s)
    ensures InSync(final)
    ensures Alternates(s.prevEnable, Publications(events))
    ensures LastPublished(s.prevEnable, Publications(events)) == Enabled(final)
    ensures !s.enable && EnableRequest !in inputs ==>
              !final.enable && forall e :: e in events && e.FrameSent? ==> !RequestsControl(e.frame)
  {
    final, events := s, [];
    var n := 0;
    while n < |inputs|
      invariant n <= |inputs|
      invariant InSync(final)
      invariant PublishesChangesOnly(s, Transition(final, events))
      invariant !s.enable && EnableRequest !in inputs[..n] ==>
                  !final.enable && forall e :: e in events && e.FrameSent? ==> !RequestsControl(e.frame)
    {
      var t := Step(final, inputs[n], expected, corrected);
      ChainPublications(s, Transition(final, events), t);
      assert inputs[..n + 1] == inputs[..n] + [inputs[n]];
      final, events := t.next, events + t.events;
      n := n + 1;
    }
    assert inputs[..n] == inputs;
  }

  /** A steering angle command. */
  const SteerRequest: Request :=
    SteeringRequest(SteeringCmd(0, 0.0, 0.0, 0.0, false, false, false, 0, 0))

  /** As written, a sweep while a steering command's enable request is
      still stored sends that request again. */
  lemma SweepResendsSteeringEnable(s: State)
    requires Clear(s) && s.gates.Get(OverrideGate(Steering))
    requires s.buffers.steering.enable == Held(1.0)
    ensures exists e :: e in TimerCallback(s).events && e.FrameSent? && RequestsControl(e.frame)
  {
    var r := TimerCallback(s);
    FramesSentMember(r.events, SteeringCommand);
    var e :| e in r.events && e.FrameSent? && e.frame.Message() == SteeringCommand;
    assert e.frame == r.next.buffers.Get(SteeringCommand);
    assert e.frame.steering.enable == Held(1.0);
  }

  /** As written, the timer sweep can send a steering frame that still
      requests the steering enable while the system is not enabled: enable,
      command steering, let the driver take the wheel (which revokes the
      enable), and enable again (accepted, but waiting on the override). */
  lemma SweepAsWrittenRequestsControl()
    ensures var s4 := EnableSystem(ApplyGate(Encode(EnableSystem(Construct().next).next, SteerRequest).next,
                                             OverrideGate(Steering), true).next).next;
      && !Enabled(s4)
      && exists e :: e in TimerCallback(s4).events && e.FrameSent? && RequestsControl(e.frame)
  {
    var s0 := Construct().next;
    var s1 := EnableSystem(s0).next;
    assert Enabled(s1);
    var s2 := Encode(s1, SteerRequest).next;
    assert s2.buffers.steering.enable == Held(1.0);
    var s3 := ApplyGate(s2, OverrideGate(Steering), true).next;
    assert s3.gates.Get(OverrideGate(Steering)) && !s3.enable && !Fault(s3);
    var s4 := EnableSystem(s3).next;
    assert s4.buffers == s2.buffers;
    SweepResendsSteeringEnable(s4);
  }

  /** The node as written takes that sweep as its timer step: from a
      state like the one above, one tick asks the vehicle to steer while the
      system is not enabled. */
  lemma StepAsWrittenRequestsControl(s: State, expected: FrameId -> nat)
    requires Clear(s) && s.gates.Get(OverrideGate(Steering))
    requires s.buffers.steering.enable == Held(1.0)
    ensures !Enabled(s)
    ensures exists e :: e in Step(s, Tick, expected, false).events && e.FrameSent? && RequestsControl(e.frame)
  {
    assert Step(s, Tick, expected, false).events == TimerCallback(s).events;
    SweepResendsSteeringEnable(s);
  }
}
