/** The enable state machine of the node: enable and disable requests, the
    override and fault setters that revoke the enable, the timeout edge
    detectors, the watchdog report, and the edge-triggered publication of
    the enabled flag that all of them share. */
module Arbitration {
  import opened DbwState
  import opened Events

  /** `publishDbwEnabled`: publish `enabled()` if it differs from the value
      last published, and remember it. */
  function PublishDbwEnabled(s: State): (r: Transition)
    ensures r.next.(prevEnable := s.prevEnable) == s
    ensures InSync(r.next)
    ensures |r.events| <= 1
    ensures r.events != [] <==> Enabled(s) != s.prevEnable
    ensures forall e :: e in r.events ==> e.EnabledPublished?
    ensures PublishesChangesOnly(s, r)
  {
    var en := Enabled(s);
    if s.prevEnable != en then
      PublicationsOfOne(EnabledPublished(en));
      AlternatesOne(s.prevEnable, en);
      Transition(s.(prevEnable := en), [EnabledPublished(en)])
    else
      Transition(s.(prevEnable := en), [])
  }

  /** A second publication with nothing changed in between emits nothing. */
  lemma PublishIsIdempotent(s: State)
    ensures PublishDbwEnabled(PublishDbwEnabled(s).next) == Transition(PublishDbwEnabled(s).next, [])
  {
  }

  /** The order in which a refused enable names the raised faults. */
  const RefusalOrder: seq<FaultKind> := [SteeringCalFault, BrakeFault, AcceleratorPedalFault, SteeringFault, WatchdogFault]

  lemma RefusalOrderComplete()
    ensures forall k :: k in RefusalOrder
  {
    forall k ensures k in RefusalOrder {
      match k
      case SteeringCalFault => assert RefusalOrder[0] == k;
      case BrakeFault => assert RefusalOrder[1] == k;
      case AcceleratorPedalFault => assert RefusalOrder[2] == k;
      case SteeringFault => assert RefusalOrder[3] == k;
      case WatchdogFault => assert RefusalOrder[4] == k;
    }
  }

  /** One refusal diagnostic per fault of `ks` that is raised in `g`, in
      the order of `ks`. */
  function RefusalReasons(g: Gates, ks: seq<FaultKind>): (r: seq<Event>)
    ensures forall k :: Warn(NotEnabled(k)) in r <==> k in ks && g.Get(FaultGate(k))
    ensures forall e :: e in r ==> e.Warn? && e.diagnostic.NotEnabled?
    ensures |r| <= |ks|
  {
    if ks == [] then []
    else
      var rest := RefusalReasons(g, ks[1..]);
      assert forall k :: k in ks <==> k == ks[0] || k in ks[1..];
      (if g.Get(FaultGate(ks[0])) then [Warn(NotEnabled(ks[0]))] else []) + rest
  }

  /** `enableSystem`: set the enable flag when it is clear and no fault is
      raised; otherwise change nothing, naming each fault that refused it. */
  function EnableSystem(s: State): (r: Transition)
    ensures r.next.enable <==> s.enable || !Fault(s)
    ensures s.enable || Fault(s) ==> r.next == s
    ensures r.next.(enable := s.enable, prevEnable := s.prevEnable) == s
    ensures Enabled(r.next) <==> !Fault(s) && !Override(s)
    ensures s.enable ==> r.events == []
    ensures !s.enable && Fault(s) ==> Publications(r.events) == []
    ensures !s.enable && Fault(s) ==> forall k :: Warn(NotEnabled(k)) in r.events <==> s.gates.Get(FaultGate(k))
    ensures !s.enable && !Fault(s) ==> InSync(r.next)
    ensures PublishesChangesOnly(s, r)
  {
    if s.enable then Transition(s, [])
    else if Fault(s) then
      var reasons := RefusalReasons(s.gates, RefusalOrder);
      RefusalOrderComplete();
      NoPublications(reasons);
      Transition(s, reasons)
    else AcceptEnable(s)
  }

  /** The accepting branch of `enableSystem`. */
  function AcceptEnable(s: State): (r: Transition)
    requires !Fault(s)
    ensures r.next.enable
    ensures r.next.(enable := s.enable, prevEnable := s.prevEnable) == s
    ensures InSync(r.next)
    ensures PublishesChangesOnly(s, r)
  {
    var p := PublishDbwEnabled(s.(enable := true));
    var note := Warn(if p.events != [] then SystemEnabled else EnableWaiting);
    PublicationsAppend(p.events, [note]);
    PublicationsOfOne(note);
    Transition(p.next, p.events + [note])
  }

  /** An accepted enable is announced as "enabled" when no override blocks
      it, and as "waiting for ready" (with no publication) when one does. */
  lemma EnableAnnouncement(s: State)
    requires InSync(s) && !s.enable && !Fault(s)
    ensures Warn(SystemEnabled) in EnableSystem(s).events <==> !Override(s)
    ensures Warn(EnableWaiting) in EnableSystem(s).events <==> Override(s)
    ensures Publications(EnableSystem(s).events) == (if Override(s) then [] else [true])
  {
    var p := PublishDbwEnabled(s.(enable := true));
    var note := Warn(if p.events != [] then SystemEnabled else EnableWaiting);
    PublicationsAppend(p.events, [note]);
    PublicationsOfOne(note);
    if !Override(s) {
      assert p.events == [EnabledPublished(true)];
    } else {
      assert p.events == [];
    }
  }

  /** `disableSystem`: clear the enable flag; when it was already clear do
      nothing at all, not even publish. */
  function DisableSystem(s: State): (r: Transition)
    ensures !r.next.enable
    ensures !s.enable ==> r == Transition(s, [])
    ensures s.enable ==> r.next.(enable := true, prevEnable := s.prevEnable) == s
    ensures s.enable ==> !r.next.prevEnable && Warn(SystemDisabled) in r.events
    ensures s.enable ==> Publications(r.events) == (if s.prevEnable then [false] else [])
    ensures PublishesChangesOnly(s, r)
  {
    if s.enable then
      var p := PublishDbwEnabled(s.(enable := false));
      PublicationsAppend(p.events, [Warn(SystemDisabled)]);
      Transition(p.next, p.events + [Warn(SystemDisabled)])
    else Transition(s, [])
  }

  /** `buttonCancel`: as `DisableSystem`, announced as a cancel press. */
  function ButtonCancel(s: State): (r: Transition)
    ensures !r.next.enable
    ensures !s.enable ==> r == Transition(s, [])
    ensures s.enable ==> r.next.(enable := true, prevEnable := s.prevEnable) == s
    ensures s.enable ==> !r.next.prevEnable && Warn(CancelPressed) in r.events
    ensures s.enable ==> Publications(r.events) == (if s.prevEnable then [false] else [])
    ensures PublishesChangesOnly(s, r)
  {
    if s.enable then
      var p := PublishDbwEnabled(s.(enable := false));
      PublicationsAppend(p.events, [Warn(CancelPressed)]);
      Transition(p.next, p.events + [Warn(CancelPressed)])
    else Transition(s, [])
  }

  /** The eight `override*` and `fault*` setters and the first part of
      `faultWatchdog`: store `value` in the flag of `g` only, clear the
      enable flag when `value` is raised while enabled, then publish. */
  function ApplyGate(s: State, g: Gate, value: bool): (r: Transition)
    ensures r.next.gates == s.gates.Set(g, value)
    ensures r.next.enable ==> s.enable
    ensures s.enable && !r.next.enable <==> value && Enabled(s)
    ensures value ==> !Enabled(r.next)
    ensures !value && Enabled(s) ==> Enabled(r.next)
    ensures InSync(r.next)
    ensures r.next.(enable := s.enable, prevEnable := s.prevEnable, gates := s.gates) == s
    ensures forall e :: e in r.events ==> e.EnabledPublished? || e == Warn(DisabledBy(g)) || e == Warn(SystemEnabled)
    ensures PublishesChangesOnly(s, r)
  {
    var en := Enabled(s);
    var s1 := s.(enable := if value && en then false else s.enable, gates := s.gates.Set(g, value));
    var p := PublishDbwEnabled(s1);
    var note := if p.events != [] then [Warn(if en then DisabledBy(g) else SystemEnabled)] else [];
    PublicationsAppend(p.events, note);
    LowerKeepsEnabled(s, g);
    Transition(p.next, p.events + note)
  }

  /** Lowering a flag never blocks an enabled system. */
  lemma LowerKeepsEnabled(s: State, g: Gate)
    ensures Enabled(s) ==> Enabled(s.(gates := s.gates.Set(g, false)))
  {
    GatesAggregate(s);
    GatesAggregate(s.(gates := s.gates.Set(g, false)));
  }

  /** Under an up-to-date shadow, a setter reports "disabled by g" exactly
      when it revoked the enable, and "enabled" exactly on the rising edge
      a lowered flag can cause. */
  lemma GateDiagnostics(s: State, g: Gate, value: bool)
    requires InSync(s)
    ensures Warn(DisabledBy(g)) in ApplyGate(s, g, value).events <==> value && Enabled(s)
    ensures Warn(SystemEnabled) in ApplyGate(s, g, value).events <==> !Enabled(s) && Enabled(ApplyGate(s, g, value).next)
  {
    var en := Enabled(s);
    var s1 := s.(enable := if value && en then false else s.enable, gates := s.gates.Set(g, value));
    if en && !value {
      assert s1.gates == s.gates by {
        GatesAggregate(s);
        GatesAggregate(s1);
        assert forall h :: s1.gates.Get(h) == s.gates.Get(h);
      }
    }
  }

  /** Lowering the only raised flag while the enable flag is set enables
      the system (the "Waiting for ready" request completes). */
  lemma GateReleaseEnables(s: State, g: Gate)
    requires s.enable && s.gates.Get(g)
    requires forall h :: h != g ==> !s.gates.Get(h)
    ensures Enabled(ApplyGate(s, g, false).next)
    ensures InSync(s) ==> Publications(ApplyGate(s, g, false).events) == [true]
  {
    var r := ApplyGate(s, g, false);
    GatesAggregate(r.next);
    GatesAggregate(s);
    if InSync(s) {
      var s1 := s.(gates := s.gates.Set(g, false));
      var p := PublishDbwEnabled(s1);
      assert p.events == [EnabledPublished(true)];
      PublicationsAppend(p.events, [Warn(SystemEnabled)]);
    }
  }

  /** Repeating a setter with the same value changes nothing and emits
      nothing. */
  lemma GateIsIdempotent(s: State, g: Gate, value: bool)
    ensures var r := ApplyGate(s, g, value); ApplyGate(r.next, g, value) == Transition(r.next, [])
  {
    var r := ApplyGate(s, g, value);
    assert r.next.gates.Set(g, value) == r.next.gates by {
      assert forall h :: r.next.gates.Set(g, value).Get(h) == r.next.gates.Get(h);
    }
  }

  /** `timeoutBrake`, `timeoutAcceleratorPedal`, `timeoutSteering`: store
      the pair verbatim and warn on the edge from "enabled, not timed out"
      to "timed out, disabled"; the enable flag is not touched. */
  function Timeout(s: State, sub: TimedSubsystem, timeout: bool, enabled: bool): (r: Transition)
    ensures r.next.timeouts.Get(sub) == Status(timeout, enabled)
    ensures forall o: TimedSubsystem :: o != sub ==> r.next.timeouts.Get(o) == s.timeouts.Get(o)
    ensures r.next.(timeouts := s.timeouts) == s
    ensures |r.events| <= 1
    ensures r.events != [] <==> s.timeouts.Get(sub) == Status(false, true) && timeout && !enabled
    ensures forall e :: e in r.events ==> e == Warn(CommandTimeout(sub))
  {
    var before := s.timeouts.Get(sub);
    var warn := if !before.timeout && before.enabled && timeout && !enabled then [Warn(CommandTimeout(sub))] else [];
    Transition(s.(timeouts := s.timeouts.Set(sub, Status(timeout, enabled))), warn)
  }

  /** A timeout is announced once per edge: after a report that says timed
      out, whatever its enabled bit, the next report of any pair is silent. */
  lemma TimeoutWarnsOncePerEdge(s: State, sub: TimedSubsystem, firstEnabled: bool, timeout: bool, enabled: bool)
    ensures var r := Timeout(s, sub, true, firstEnabled);
      Timeout(r.next, sub, timeout, enabled).events == []
  {
  }

  /** The latch update and diagnostics of `faultWatchdog` that follow
      the gating part. */
  datatype WatchdogUpdate = WatchdogUpdate(latch: WatchdogLatch, notes: seq<Event>)

  function WatchdogEpisode(latch: WatchdogLatch, fault: bool, src: Byte, braking: bool): (r: WatchdogUpdate)
    ensures r.latch.usingBrakes == braking
    ensures fault && src != 0 && !latch.warned ==> r.latch.warned
    ensures !fault ==> !r.latch.warned
    ensures fault && (src == 0 || latch.warned) ==> r.latch.warned == latch.warned
    ensures Warn(WatchdogBraking) in r.notes <==> braking && !latch.usingBrakes
    ensures Warn(WatchdogDriverControl) in r.notes <==> !braking && latch.usingBrakes
    ensures forall x :: Warn(WatchdogSource(x)) in r.notes <==> x == src && fault && src != 0 && !latch.warned
    ensures Warn(WatchdogReminder) in r.notes <==> fault && !braking && r.latch.warned
    ensures forall e :: e in r.notes ==> e.Warn? && !e.diagnostic.DisabledBy? && !e.diagnostic.SystemEnabled?
    ensures forall e :: e in r.notes ==> GatingEvent(e)
  {
    var brakingNote :=
      if braking && !latch.usingBrakes then [Warn(WatchdogBraking)]
      else if !braking && latch.usingBrakes then [Warn(WatchdogDriverControl)]
      else [];
    var sourceNote := if fault && src != 0 && !latch.warned then [Warn(WatchdogSource(src))] else [];
    var warned := if fault && src != 0 && !latch.warned then true else if !fault then false else latch.warned;
    var reminder := if fault && !braking && warned then [Warn(WatchdogReminder)] else [];
    WatchdogUpdate(WatchdogLatch(braking, warned), brakingNote + sourceNote + reminder)
  }

  /** What a gate setter or a watchdog report may emit: the publication
      and the enable, disable and watchdog diagnostics. */
  predicate GatingEvent(e: Event) {
    || e.EnabledPublished?
    || (e.Warn? && (|| e.diagnostic.DisabledBy? || e.diagnostic.SystemEnabled?
                    || e.diagnostic.WatchdogBraking? || e.diagnostic.WatchdogDriverControl?
                    || e.diagnostic.WatchdogSource? || e.diagnostic.WatchdogReminder?))
  }

  lemma GatingChain(a: seq<Event>, b: seq<Event>)
    requires forall e :: e in a ==> GatingEvent(e)
    requires forall e :: e in b ==> GatingEvent(e)
    ensures forall e :: e in a + b ==> GatingEvent(e)
  {
  }

  /** `faultWatchdog` with a braking indication: the gating part on the
      watchdog fault flag, then the latch update and its diagnostics. */
  function FaultWatchdog(s: State, fault: bool, src: Byte, braking: bool): (r: Transition)
    ensures r.next.gates == s.gates.Set(FaultGate(WatchdogFault), fault)
    ensures r.next.enable ==> s.enable
    ensures s.enable && !r.next.enable <==> fault && Enabled(s)
    ensures !fault && Enabled(s) ==> Enabled(r.next)
    ensures InSync(r.next)
    ensures r.next.(enable := s.enable, prevEnable := s.prevEnable, gates := s.gates, watchdog := s.watchdog) == s
    ensures r.next.watchdog == WatchdogEpisode(s.watchdog, fault, src, braking).latch
    ensures r.events == ApplyGate(s, FaultGate(WatchdogFault), fault).events
                        + WatchdogEpisode(s.watchdog, fault, src, braking).notes
    ensures forall e :: e in r.events ==> GatingEvent(e)
    ensures PublishesChangesOnly(s, r)
  {
    var t := ApplyGate(s, FaultGate(WatchdogFault), fault);
    var u := WatchdogEpisode(t.next.watchdog, fault, src, braking);
    var n := t.next.(watchdog := u.latch);
    assert Enabled(n) == Enabled(t.next) && InSync(n);
    ExtendQuietly(s, t, n, u.notes);
    GatingChain(t.events, u.notes);
    Transition(n, t.events + u.notes)
  }

  /** The watchdog latches after `faultWatchdog`, and the diagnostics it
      emits about them: the braking status is stored and its changes
      announced; the cause is announced, and `warned` set, on the first
      faulted report that names one; a report without the fault clears
      `warned`; while the fault stands without the watchdog braking, the
      reminder to acknowledge it is repeated. */
  lemma FaultWatchdogLatches(s: State, fault: bool, src: Byte, braking: bool)
    ensures var r := FaultWatchdog(s, fault, src, braking);
      && r.next.watchdog.usingBrakes == braking
      && (fault && src != 0 && !s.watchdog.warned ==> r.next.watchdog.warned)
      && (!fault ==> !r.next.watchdog.warned)
      && (fault && (src == 0 || s.watchdog.warned) ==> r.next.watchdog.warned == s.watchdog.warned)
      && (Warn(WatchdogBraking) in r.events <==> braking && !s.watchdog.usingBrakes)
      && (Warn(WatchdogDriverControl) in r.events <==> !braking && s.watchdog.usingBrakes)
      && (forall x :: Warn(WatchdogSource(x)) in r.events <==> x == src && fault && src != 0 && !s.watchdog.warned)
      && (Warn(WatchdogReminder) in r.events <==> fault && !braking && r.next.watchdog.warned)
  {
    var t := ApplyGate(s, FaultGate(WatchdogFault), fault);
    var u := WatchdogEpisode(s.watchdog, fault, src, braking);
    forall d: Diagnostic | !d.DisabledBy? && !d.SystemEnabled?
      ensures Warn(d) in t.events + u.notes <==> Warn(d) in u.notes
    {
    }
  }

  /** `faultWatchdog` without a braking indication: the stored braking
      status is reused, so it neither changes nor is announced. */
  function FaultWatchdogKeepBraking(s: State, fault: bool, src: Byte): (r: Transition)
    ensures r == FaultWatchdog(s, fault, src, s.watchdog.usingBrakes)
    ensures r.next.gates == s.gates.Set(FaultGate(WatchdogFault), fault)
    ensures s.enable && !r.next.enable <==> fault && Enabled(s)
    ensures r.next.enable ==> s.enable
    ensures !fault && Enabled(s) ==> Enabled(r.next)
    ensures InSync(r.next)
    ensures r.next.(enable := s.enable, prevEnable := s.prevEnable, gates := s.gates, watchdog := s.watchdog) == s
    ensures r.next.watchdog.usingBrakes == s.watchdog.usingBrakes
    ensures Warn(WatchdogBraking) !in r.events && Warn(WatchdogDriverControl) !in r.events
    ensures !fault ==> !r.next.watchdog.warned
    ensures forall e :: e in r.events ==> GatingEvent(e)
    ensures PublishesChangesOnly(s, r)
  {
    FaultWatchdogLatches(s, fault, src, s.watchdog.usingBrakes);
    FaultWatchdog(s, fault, src, s.watchdog.usingBrakes)
  }

  /** Within one fault episode the watchdog cause is announced at most
      once: after a faulted report that announced (or had already
      announced) it, a further faulted report stays silent about the cause. */
  lemma WatchdogSourceOncePerEpisode(s: State, src1: Byte, braking1: bool, src2: Byte, braking2: bool)
    requires src1 != 0 || s.watchdog.warned
    ensures var r1 := FaultWatchdog(s, true, src1, braking1);
      forall x :: Warn(WatchdogSource(x)) !in FaultWatchdog(r1.next, true, src2, braking2).events
  {
    FaultWatchdogLatches(s, true, src1, braking1);
    FaultWatchdogLatches(FaultWatchdog(s, true, src1, braking1).next, true, src2, braking2);
  }

  /** A report with the fault lowered ends the episode: the next faulted
      report with a cause announces it again. */
  lemma WatchdogSourceAfterRecovery(s: State, src0: Byte, braking0: bool, src: Byte, braking: bool)
    requires src != 0
    ensures var r0 := FaultWatchdog(s, false, src0, braking0);
      Warn(WatchdogSource(src)) in FaultWatchdog(r0.next, true, src, braking).events
  {
    FaultWatchdogLatches(s, false, src0, braking0);
    FaultWatchdogLatches(FaultWatchdog(s, false, src0, braking0).next, true, src, braking);
  }
}
