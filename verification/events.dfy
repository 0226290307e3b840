/** What a transition of the node emits: the edge-triggered `dbw_enabled`
    publication, command frames on the bus, decoded reports, the VIN, and
    diagnostics (as tags; their text and throttling are not modelled). */
module Events {
  import opened DbwState

  /** Inbound report identifiers that yield a typed report. */
  datatype ReportKind =
    | BrakeReport | AcceleratorPedalReport | SteeringReport | GearReport
    | WheelSpeedReport | WheelPositionReport | TirePressureReport | SurroundReport
    | ImuReport | DriverInputReport | MiscReport | LowVoltageSystemReport

  datatype Diagnostic =
    | NotEnabled(cause: FaultKind)       // enable refused, one per raised fault
    | SystemEnabled                      // "DBW system enabled."
    | EnableWaiting                      // "enable requested. Waiting for ready."
    | SystemDisabled                     // "DBW system disabled."
    | CancelPressed                      // "disabled. Cancel button pressed."
    | DisabledBy(gate: Gate)             // a raised gate revoked the enable
    | CommandTimeout(subsystem: Subsystem)
    | WatchdogBraking                    // watchdog starts applying the brakes
    | WatchdogDriverControl              // driver has taken control back
    | WatchdogSource(source: int)        // the cause the watchdog reported
    | WatchdogReminder                   // press OK or cycle power to clear
    | SubsystemFault(subsystem: Subsystem)
    | GearRejected

  datatype Event =
    | EnabledPublished(enabled: bool)
    | FrameSent(frame: Frame)
    | ReportPublished(report: ReportKind)
    | VinPublished(vin: seq<int>)
    | Warn(diagnostic: Diagnostic)

  /** The state after an operation and what it emitted, in order. */
  datatype Transition = Transition(next: State, events: seq<Event>)

  /** The values published on `dbw_enabled`, in order. */
  function Publications(evs: seq<Event>): (r: seq<bool>)
    ensures |r| <= |evs|
  {
    if evs == [] then []
    else (if evs[0].EnabledPublished? then [evs[0].enabled] else []) + Publications(evs[1..])
  }

  lemma {:induction false} PublicationsAppend(a: seq<Event>, b: seq<Event>)
    ensures Publications(a + b) == Publications(a) + Publications(b)
  {
    if a == [] {
      assert a + b == b;
    } else {
      var head := if a[0].EnabledPublished? then [a[0].enabled] else [];
      assert (a + b)[0] == a[0];
      assert (a + b)[1..] == a[1..] + b;
      PublicationsAppend(a[1..], b);
      calc {
        Publications(a + b);
        head + Publications(a[1..] + b);
        head + (Publications(a[1..]) + Publications(b));
        (head + Publications(a[1..])) + Publications(b);
      }
    }
  }

  /** A stream of diagnostics, frames and reports publishes nothing. */
  lemma {:induction false} NoPublications(evs: seq<Event>)
    requires forall e :: e in evs ==> !e.EnabledPublished?
    ensures Publications(evs) == []
  {
    if evs != [] {
      assert evs[0] in evs;
      assert forall e :: e in evs[1..] ==> e in evs;
      NoPublications(evs[1..]);
    }
  }

  lemma PublicationsOfOne(e: Event)
    ensures Publications([e]) == (if e.EnabledPublished? then [e.enabled] else [])
  {
    assert [e][1..] == [];
  }

  /** A single change is a change-only stream ending at the new value. */
  lemma AlternatesOne(prev: bool, b: bool)
    requires b != prev
    ensures Alternates(prev, [b]) && LastPublished(prev, [b]) == b
  {
    assert [b][1..] == [];
  }

  /** The messages of the command frames sent, in order. */
  function FramesSent(evs: seq<Event>): (r: seq<CommandMessage>)
    ensures |r| <= |evs|
  {
    if evs == [] then []
    else (if evs[0].FrameSent? then [evs[0].frame.Message()] else []) + FramesSent(evs[1..])
  }

  /** A message is among those sent exactly when some event sends a frame
      of it. */
  lemma {:induction false} FramesSentMember(evs: seq<Event>, m: CommandMessage)
    ensures m in FramesSent(evs) <==> exists e :: e in evs && e.FrameSent? && e.frame.Message() == m
  {
    if evs != [] {
      FramesSentMember(evs[1..], m);
      assert forall e :: e in evs <==> e == evs[0] || e in evs[1..];
    }
  }

  /** Every publication differs from the one before it, the first from
      `prev`: a subscriber only ever sees changes. */
  predicate Alternates(prev: bool, pubs: seq<bool>)
    decreases |pubs|
  {
    pubs == [] || (pubs[0] != prev && Alternates(pubs[0], pubs[1..]))
  }

  /** The value a subscriber holds after `pubs`, having held `prev`. */
  function LastPublished(prev: bool, pubs: seq<bool>): bool
    decreases |pubs|
  {
    if pubs == [] then prev else LastPublished(pubs[0], pubs[1..])
  }

  /** Two change-only streams chain into one. */
  lemma {:induction false} AlternatesAppend(prev: bool, a: seq<bool>, b: seq<bool>)
    requires Alternates(prev, a)
    requires Alternates(LastPublished(prev, a), b)
    ensures Alternates(prev, a + b)
    ensures LastPublished(prev, a + b) == LastPublished(LastPublished(prev, a), b)
    decreases |a|
  {
    if a == [] {
      assert a + b == b;
    } else {
      assert (a + b)[0] == a[0];
      assert (a + b)[1..] == a[1..] + b;
      AlternatesAppend(a[0], a[1..], b);
    }
  }

  /** `t` publishes only changes of the enabled flag, starting from what
      `s` last published, and its shadow holds the last value published. */
  predicate PublishesChangesOnly(s: State, t: Transition) {
    && Alternates(s.prevEnable, Publications(t.events))
    && LastPublished(s.prevEnable, Publications(t.events)) == t.next.prevEnable
  }

  /** Running `t2` after `t1` publishes only changes too. */
  lemma ChainPublications(s: State, t1: Transition, t2: Transition)
    requires PublishesChangesOnly(s, t1)
    requires PublishesChangesOnly(t1.next, t2)
    ensures PublishesChangesOnly(s, Transition(t2.next, t1.events + t2.events))
  {
    PublicationsAppend(t1.events, t2.events);
    AlternatesAppend(s.prevEnable, Publications(t1.events), Publications(t2.events));
  }

  /** Appending events that publish nothing, and moving to a state with
      the same shadow, keeps a transition change-only. */
  lemma ExtendQuietly(s: State, t: Transition, next: State, more: seq<Event>)
    requires PublishesChangesOnly(s, t)
    requires forall e :: e in more ==> !e.EnabledPublished?
    requires next.prevEnable == t.next.prevEnable
    ensures PublishesChangesOnly(s, Transition(next, t.events + more))
  {
    NoPublications(more);
    PublicationsAppend(t.events, more);
    assert Publications(t.events + more) == Publications(t.events);
  }
}
