/** What the charging policy guarantees over whole runs. */
module SmartChargingRuns {
  import opened Wrappers
  import opened Hysteresis
  import opened SmartCharging

  // ----- The latch invariant -----

  const BOOT := System(POWER_ON, 0)

  function Run(y: System, es: seq<Event>): System {
    if es == [] then y else Handle(Run(y, es[..|es| - 1]), es[|es| - 1])
  }

  /** The sysfs layer raises notification 1 only when it stores the setting 140060. */
  predicate Raised(e: Event) {
    e.Sysfs? && e.code == 1 ==> e.i.protection == 140060
  }

  predicate Consistent(s: Latches) {
    && (s.chgen ==> s.disableCharger)
    && (s.chgenEu ==> s.disableCharger && !s.protectionDischg)
    && !(s.chgen && s.chgenEu)
  }

  lemma NextKeepsConsistent(s: Latches, i: Inputs)
    requires Consistent(s)
    ensures Consistent(Next(s, i))
  {
  }

  lemma NextPhase(s: Latches, i: Inputs)
    ensures Next(s, i).phase == Settle(s.phase, PhaseVerdict(i))
  {
  }

  /** After a reset notification with arbitrary settings the latches are
      consistent exactly when the second-setting latch was clear, or the call
      that follows suspends the input or finds the protection window on. */
  lemma ResetNotification(s: Latches, i: Inputs)
    requires Consistent(s)
    ensures var phase := Settle(s.phase, PhaseVerdict(i));
            Consistent(Next(s.(chgen := false, disableCharger := false), i))
            <==> (!s.chgenEu || Effective(i, phase).suspend || Protects(i.protection))
  {
  }

  /** Every run of events the system can see keeps the latches consistent. */
  lemma {:induction false} RunKeepsConsistent(y: System, es: seq<Event>)
    requires Consistent(y.latches)
    requires forall k :: 0 <= k < |es| ==> Raised(es[k])
    ensures Consistent(Run(y, es).latches)
    ensures var s := Run(y, es).latches;
            && (s.chgen ==> s.disableCharger) && (s.chgenEu ==> s.disableCharger)
            && (s.chgenEu ==> !s.protectionDischg) && (s.chgen ==> !s.chgenEu)
  {
    if es != [] {
      RunKeepsConsistent(y, es[..|es| - 1]);
      HandleKeepsConsistent(Run(y, es[..|es| - 1]), es[|es| - 1]);
    }
  }

  lemma HandleKeepsConsistent(y: System, e: Event)
    requires Consistent(y.latches) && Raised(e)
    ensures Consistent(Handle(y, e).latches)
  {
    hide Next;
    var prepared := Prepared(y.latches, e);
    if prepared.Some? {
      var (s, i) := prepared.value;
      if e.Sysfs? && e.code == 1 {
        ResetNotification(y.latches, i);
      } else {
        NextKeepsConsistent(s, i);
      }
    }
  }

  // ----- Bypass mode -----

  /** How an event moves the bypass phase. */
  function EventVerdict(e: Event): Verdict {
    match e
    case Call(i) => PhaseVerdict(i)
    case PlugIn(i) => PhaseVerdict(i)
    case PowerChanged(_) => Hold
    case Sysfs(_, online, i) => if online then PhaseVerdict(i) else Hold
  }

  function EventVerdicts(es: seq<Event>): (vs: seq<Verdict>)
    ensures |vs| == |es| && forall k :: 0 <= k < |es| ==> vs[k] == EventVerdict(es[k])
  {
    seq(|es|, k requires 0 <= k < |es| => EventVerdict(es[k]))
  }

  lemma {:induction false} RunMovesPhase(y: System, es: seq<Event>)
    ensures Run(y, es).latches.phase == After(y.latches.phase, EventVerdicts(es))
  {
    if es != [] {
      RunMovesPhase(y, es[..|es| - 1]);
      HandleMovesPhase(Run(y, es[..|es| - 1]), es[|es| - 1]);
      assert EventVerdicts(es)[..|es| - 1] == EventVerdicts(es[..|es| - 1]);
    }
  }

  lemma HandleMovesPhase(y: System, e: Event)
    ensures Handle(y, e).latches.phase == Settle(y.latches.phase, EventVerdict(e))
  {
    hide Next, PhaseVerdict;
    var prepared := Prepared(y.latches, e);
    if prepared.Some? {
      NextPhase(prepared.value.0, prepared.value.1);
    }
  }

  /** Hysteresis of the bypass mode over any run: the phase is "charging" exactly
      when the latest sample outside its bypass interval was below it. */
  lemma PhaseFollowsLatestSample(y: System, es: seq<Event>)
    ensures var k := Latest(EventVerdicts(es));
            Run(y, es).latches.phase == if k < 0 then y.latches.phase else EventVerdict(es[k]) == On
    ensures var k := Latest(EventVerdicts(es));
            k >= 0 ==>
              && !es[k].PowerChanged? && es[k].i.bypass.Some?
              && (Run(y, es).latches.phase <==> es[k].i.soc < es[k].i.bypass.value.low)
              && (!Run(y, es).latches.phase ==> es[k].i.soc >= es[k].i.bypass.value.high)
  {
    RunMovesPhase(y, es);
    LatestDecides(y.latches.phase, EventVerdicts(es));
  }

  /** With both protection settings off, a call in bypass mode leaves charging
      forbidden exactly while the phase is not "charging". */
  lemma BypassSteersCharging(s: Latches, i: Inputs)
    requires Consistent(s) && BypassOn(i) && !Protects(i.protection) && !Protects(i.protectionEu)
    ensures Next(s, i).disableCharger == !Next(s, i).phase
  {
  }

  /** End to end, from power-on through any run of events: right after a call in
      bypass mode with both protection settings off, charging is allowed exactly
      when the latest sample outside the bypass interval was below it. */
  lemma BypassEndToEnd(es: seq<Event>, i: Inputs)
    requires forall k :: 0 <= k < |es| ==> Raised(es[k])
    requires BypassOn(i) && !Protects(i.protection) && !Protects(i.protectionEu)
    ensures var all := es + [Call(i)];
            var k := Latest(EventVerdicts(all));
            Run(BOOT, all).latches.disableCharger == !(k >= 0 && EventVerdict(all[k]) == On)
  {
    hide Next;
    var all := es + [Call(i)];
    assert all[..|es|] == es;
    RunKeepsConsistent(BOOT, es);
    BypassSteersCharging(Run(BOOT, es).latches, i);
    PhaseFollowsLatestSample(BOOT, all);
  }

  // ----- What each regime does to the latches -----

  predicate NoBypass(i: Inputs) {
    i.bypass == None || !i.bypass.value.enable
  }

  /** A call in bypass mode is a call without it whose suspend and stop inputs are
      what the phase makes of them. */
  lemma BypassOverrides(s: Latches, i: Inputs)
    requires !NoBypass(i)
    ensures var low, high := i.bypass.value.low, i.bypass.value.high;
            var phase := if i.soc < low then true else if i.soc >= high then false else s.phase;
            Next(s, i) == Next(s.(phase := phase),
              i.(bypass := None, suspend := !phase && i.soc >= high, stopCharging := !phase))
  {
  }

  /** A suspended input stops charging, whatever else is asked for. */
  lemma SuspendCall(s: Latches, i: Inputs)
    requires Consistent(s) && NoBypass(i) && i.suspend
    ensures var t := Next(s, i);
            t.disableCharger && t.chgen && !t.chgenEu && t.protectionDischg == s.protectionDischg && t.phase == s.phase
  {
  }

  /** So does the stop request, unless a protection window is on. */
  lemma StopCall(s: Latches, i: Inputs)
    requires Consistent(s) && NoBypass(i) && !i.suspend && i.stopCharging
    requires -100000 < i.protection < 100000
    ensures var t := Next(s, i);
            t.disableCharger && !t.chgen && t.chgenEu && !t.protectionDischg && t.phase == s.phase
  {
  }

  /** With nothing asking for a stop, charging is allowed. */
  lemma ReleaseCall(s: Latches, i: Inputs)
    requires Consistent(s) && NoBypass(i) && !i.suspend && !i.stopCharging
    requires -100000 < i.protection < 100000 && -100000 < i.protectionEu < 100000
    ensures var t := Next(s, i);
            && !t.disableCharger && !t.chgen && !t.chgenEu
            && t.protectionDischg == s.protectionDischg && t.phase == s.phase
  {
  }

  /** A window, latch by latch: it stops at the high level and resumes at the low one,
      in whatever order they are. */
  lemma WindowLatches(s: Latches, i: Inputs)
    requires Consistent(s) && NoBypass(i) && !i.suspend && Protects(i.protection)
    ensures var t, low, high := Next(s, i), WindowLow(i.protection), WindowHigh(i.protection);
            && (t.disableCharger <==> if s.disableCharger then i.soc > low else i.soc >= high)
            && (t.chgen <==>
                  && (if s.disableCharger then s.chgen && i.soc > low else i.soc >= high)
                  && !(low < i.soc <= high))
            && (t.protectionDischg <==> s.protectionDischg || (i.soc >= high && !s.disableCharger))
            && !t.chgenEu && t.phase == s.phase
  {
  }

  /** The second setting alone, latch by latch. */
  lemma CapLatches(s: Latches, i: Inputs)
    requires Consistent(s) && NoBypass(i) && !i.suspend && !i.stopCharging
    requires -100000 < i.protection < 100000 && Protects(i.protectionEu)
    ensures var t, high := Next(s, i), EuHigh(i.protectionEu);
            && (i.soc >= high && high != 100 ==> t.disableCharger && t.chgenEu && !t.protectionDischg)
            && (i.soc * 100 <= high * 95 ==> !t.disableCharger && !t.chgenEu)
            && (i.soc * 100 > high * 95 && (i.soc < high || high == 100) ==>
                  && (t.disableCharger <==> s.disableCharger && !s.protectionDischg)
                  && (t.chgenEu <==> s.chgenEu))
            && (i.soc < high || high == 100 ==> t.protectionDischg == s.protectionDischg)
            && !t.chgen && t.phase == s.phase
  {
  }

  /** The supply type remembered is that of the last change. */
  lemma {:induction false} SupplyRemembered(y: System, es: seq<Event>, k: nat)
    requires k < |es| && es[k].PowerChanged? && forall j :: k < j < |es| ==> !es[j].PowerChanged?
    ensures Run(y, es).preUsbType == es[k].usbType
  {
    hide Next;
    if k < |es| - 1 {
      SupplyRemembered(y, es[..|es| - 1], k);
    }
  }

  // ----- The stop latch under events -----

  /** The handler of an event calls the policy. */
  predicate Calls(e: Event) {
    !e.PowerChanged? && (e.Sysfs? ==> e.online)
  }

  /** The handler of an event first lifts a stop. */
  predicate Lifts(y: System, e: Event) {
    match e
    case Call(_) => false
    case PlugIn(_) => true
    case PowerChanged(usbType) => y.preUsbType != usbType && usbType != 0
    case Sysfs(code, online, _) => online && code == 1
  }

  /** How an event moves the stop latch, where its sample alone does `verdict`. */
  function Turn(y: System, e: Event, verdict: Inputs -> Verdict): Verdict {
    var v := if Calls(e) then verdict(e.i) else Hold;
    if Lifts(y, e) && v != On then Off else v
  }

  function Turns(y: System, es: seq<Event>, verdict: Inputs -> Verdict): (vs: seq<Verdict>)
    ensures |vs| == |es| && forall k :: 0 <= k < |es| ==> vs[k] == Turn(Run(y, es[..k]), es[k], verdict)
  {
    seq(|es|, k requires 0 <= k < |es| => Turn(Run(y, es[..k]), es[k], verdict))
  }

  lemma TurnsPrefix(y: System, es: seq<Event>, verdict: Inputs -> Verdict)
    requires es != []
    ensures Turns(y, es, verdict)[..|es| - 1] == Turns(y, es[..|es| - 1], verdict)
  {
    forall k | 0 <= k < |es| - 1 ensures es[..|es| - 1][..k] == es[..k] {
    }
  }

  /** How the whole policy moves the stop latch outside bypass mode: suspend, window,
      stop request and second setting in this order, and a release if none is on. */
  function PolicyVerdict(i: Inputs): Verdict {
    if i.suspend then On
    else if Protects(i.protection) then WindowVerdict(i)
    else if i.stopCharging then On
    else if Protects(i.protectionEu) then CapVerdict(i)
    else Off
  }

  /** The calls of the run are outside bypass mode, their windows have levels in
      order, and no stop is left behind by a window for the second setting to lift. */
  predicate PolicyEvents(y: System, es: seq<Event>) {
    forall k :: 0 <= k < |es| ==> Raised(es[k]) && (Calls(es[k]) ==>
      && NoBypass(es[k].i)
      && (!es[k].i.suspend && Protects(es[k].i.protection) ==>
            WindowLow(es[k].i.protection) < WindowHigh(es[k].i.protection))
      && (CapGoverns(es[k].i) ==> !Run(y, es[..k]).latches.protectionDischg))
  }

  lemma PolicyCall(s: Latches, i: Inputs)
    requires NoBypass(i) && (CapGoverns(i) ==> Consistent(s) && !s.protectionDischg)
    requires (s.chgen ==> s.disableCharger) && (s.chgenEu && !Protects(i.protection) ==> Consistent(s))
    requires !i.suspend && Protects(i.protection) ==> WindowLow(i.protection) < WindowHigh(i.protection)
    ensures Next(s, i).disableCharger == Settle(s.disableCharger, PolicyVerdict(i))
  {
    hide WindowLow, WindowHigh, EuHigh;
    if CapGoverns(i) {
      CapCall(s, i);
    }
  }

  lemma HandlePolicy(y: System, e: Event)
    requires Consistent(y.latches) && PolicyEvents(y, [e])
    ensures Handle(y, e).latches.disableCharger == Settle(y.latches.disableCharger, Turn(y, e, PolicyVerdict))
  {
    hide Next, WindowLow, WindowHigh, EuHigh, PolicyVerdict;
    assert [e][0] == e && [e][..0] == [];
    var prepared := Prepared(y.latches, e);
    if prepared.Some? {
      PolicyCall(prepared.value.0, prepared.value.1);
    }
  }

  /** Over any run of events outside bypass mode, whatever its settings: a stop is in
      force exactly when the latest event that moved the latch was a call that asks
      for one. */
  lemma {:induction false} PolicyRun(y: System, es: seq<Event>)
    requires Consistent(y.latches) && PolicyEvents(y, es)
    ensures var vs := Turns(y, es, PolicyVerdict);
            var k := Latest(vs);
            Run(y, es).latches.disableCharger ==
              if k < 0 then y.latches.disableCharger else Calls(es[k]) && PolicyVerdict(es[k].i) == On
  {
    hide Handle, PolicyVerdict, WindowLow, WindowHigh, CapGoverns;
    var vs := Turns(y, es, PolicyVerdict);
    LatestDecides(y.latches.disableCharger, vs);
    PolicyRunAfter(y, es);
  }

  lemma {:induction false} PolicyRunAfter(y: System, es: seq<Event>)
    requires Consistent(y.latches) && PolicyEvents(y, es)
    ensures Run(y, es).latches.disableCharger == After(y.latches.disableCharger, Turns(y, es, PolicyVerdict))
  {
    hide Handle, PolicyVerdict, WindowLow, WindowHigh, CapGoverns;
    if es != [] {
      var before, e := es[..|es| - 1], es[|es| - 1];
      forall k | 0 <= k < |before| ensures before[k] == es[k] && before[..k] == es[..k] {
      }
      PolicyRunAfter(y, before);
      RunKeepsConsistent(y, before);
      assert PolicyEvents(Run(y, before), [e]) by {
        assert es[..|es| - 1] == before;
        assert forall k :: 0 <= k < |[e]| ==> [e][k] == e && Run(Run(y, before), [e][..k]) == Run(y, before);
      }
      HandlePolicy(Run(y, before), e);
      TurnsPrefix(y, es, PolicyVerdict);
    }
  }

  /** A suspended input: over any run all of whose calls have it, a stop is in force
      exactly when the latest call came after every new supply type. */
  lemma SuspendRun(y: System, es: seq<Event>)
    requires Consistent(y.latches)
    requires forall k :: 0 <= k < |es| ==> Raised(es[k]) && (Calls(es[k]) ==> NoBypass(es[k].i) && es[k].i.suspend)
    ensures var k := Latest(Turns(y, es, PolicyVerdict));
            Run(y, es).latches.disableCharger == if k < 0 then y.latches.disableCharger else Calls(es[k])
  {
    hide Handle, WindowLow, WindowHigh, EuHigh;
    PolicyRun(y, es);
  }

  // ----- Protection windows -----

  /** The first protection setting governs the call. */
  predicate WindowGoverns(i: Inputs) {
    !BypassOn(i) && !i.suspend && Protects(i.protection)
  }

  function WindowVerdict(i: Inputs): Verdict {
    if i.soc >= WindowHigh(i.protection) then On else if i.soc <= WindowLow(i.protection) then Off else Hold
  }

  lemma WindowCall(s: Latches, i: Inputs)
    requires Consistent(s) && WindowGoverns(i) && WindowLow(i.protection) < WindowHigh(i.protection)
    ensures Next(s, i).disableCharger == Settle(s.disableCharger, WindowVerdict(i))
  {
  }

  /** Every call of the run is governed by the window, with its low level below its high one. */
  predicate WindowEvents(es: seq<Event>) {
    forall k :: 0 <= k < |es| ==> Raised(es[k]) && (Calls(es[k]) ==>
      WindowGoverns(es[k].i) && WindowLow(es[k].i.protection) < WindowHigh(es[k].i.protection))
  }

  lemma HandleWindow(y: System, e: Event)
    requires Consistent(y.latches) && WindowEvents([e])
    ensures Handle(y, e).latches.disableCharger == Settle(y.latches.disableCharger, Turn(y, e, WindowVerdict))
  {
    hide WindowLow, WindowHigh;
    assert [e][0] == e;
  }

  /** Hysteresis of the protection window over any run of events: a stop is in
      force exactly when the latest event that moved the latch was a call at or
      above the high level, and not one at or below the low level, a plug-in, a
      new supply type or a reset. */
  lemma {:induction false} WindowRun(y: System, es: seq<Event>)
    requires Consistent(y.latches) && WindowEvents(es)
    ensures var vs := Turns(y, es, WindowVerdict);
            var k := Latest(vs);
            && Run(y, es).latches.disableCharger == After(y.latches.disableCharger, vs)
            && Run(y, es).latches.disableCharger ==
                 if k < 0 then y.latches.disableCharger
                 else Calls(es[k]) && es[k].i.soc >= WindowHigh(es[k].i.protection)
  {
    hide Handle, WindowLow, WindowHigh;
    LatestDecides(y.latches.disableCharger, Turns(y, es, WindowVerdict));
    if es != [] {
      var before, e := es[..|es| - 1], es[|es| - 1];
      WindowRun(y, before);
      RunKeepsConsistent(y, before);
      HandleWindow(Run(y, before), e);
      TurnsPrefix(y, es, WindowVerdict);
    }
  }

  /** The window is a switch that settles, so that repeating a sample changes
      nothing, exactly when its clamped low level is below its high level. */
  lemma WindowSettles(i: Inputs)
    requires WindowGoverns(i)
    ensures WindowLow(i.protection) < WindowHigh(i.protection)
      <==> forall s: Latches, soc: int | Consistent(s) :: Repeats(s, i.(soc := soc))
  {
    var low, high := WindowLow(i.protection), WindowHigh(i.protection);
    if low < high {
      forall s: Latches, soc: int | Consistent(s)
        ensures Repeats(s, i.(soc := soc))
      {
        NextKeepsConsistent(s, i.(soc := soc));
        WindowCall(s, i.(soc := soc));
        WindowCall(Next(s, i.(soc := soc)), i.(soc := soc));
      }
    } else {
      assert !Repeats(POWER_ON, i.(soc := high));
    }
  }

  /** A second call with the same inputs keeps the verdict of the first. */
  predicate Repeats(s: Latches, i: Inputs) {
    Next(Next(s, i), i).disableCharger == Next(s, i).disableCharger
  }

  // ----- The second protection setting -----

  predicate CapGoverns(i: Inputs) {
    !BypassOn(i) && !i.suspend && !i.stopCharging && !Protects(i.protection) && Protects(i.protectionEu)
  }

  function CapVerdict(i: Inputs): Verdict {
    var high := EuHigh(i.protectionEu);
    if i.soc >= high && high != 100 then On else if i.soc * 100 <= high * 95 then Off else Hold
  }

  /** One call under the second setting alone: stop at its level unless that is
      100, resume at 95 percent of it, and in between keep what was, except that
      a stop left behind by a protection window is lifted. */
  lemma CapCall(s: Latches, i: Inputs)
    requires Consistent(s) && CapGoverns(i)
    ensures Next(s, i).disableCharger
         == Settle(s.disableCharger && !s.protectionDischg, CapVerdict(i))
    ensures !s.protectionDischg ==> !Next(s, i).protectionDischg
  {
  }

  predicate CapEvents(es: seq<Event>) {
    forall k :: 0 <= k < |es| ==> Raised(es[k]) && (Calls(es[k]) ==> CapGoverns(es[k].i))
  }

  lemma HandleCap(y: System, e: Event)
    requires Consistent(y.latches) && !y.latches.protectionDischg && CapEvents([e])
    ensures Handle(y, e).latches.disableCharger == Settle(y.latches.disableCharger, Turn(y, e, CapVerdict))
    ensures !Handle(y, e).latches.protectionDischg
  {
    hide Next, EuHigh;
    assert [e][0] == e;
    var prepared := Prepared(y.latches, e);
    if prepared.Some? {
      CapCall(prepared.value.0, prepared.value.1);
    }
  }

  /** Hysteresis of the second setting over any run of events that starts without
      a stop left behind by a protection window: likewise for its level and the
      95 percent of it. */
  lemma {:induction false} CapRun(y: System, es: seq<Event>)
    requires Consistent(y.latches) && !y.latches.protectionDischg && CapEvents(es)
    ensures !Run(y, es).latches.protectionDischg
    ensures var vs := Turns(y, es, CapVerdict);
            var k := Latest(vs);
            && Run(y, es).latches.disableCharger == After(y.latches.disableCharger, vs)
            && Run(y, es).latches.disableCharger ==
                 if k < 0 then y.latches.disableCharger
                 else Calls(es[k]) && CapVerdict(es[k].i) == On
  {
    hide Handle, CapVerdict;
    LatestDecides(y.latches.disableCharger, Turns(y, es, CapVerdict));
    if es != [] {
      var before, e := es[..|es| - 1], es[|es| - 1];
      CapRun(y, before);
      RunKeepsConsistent(y, before);
      HandleCap(Run(y, before), e);
      TurnsPrefix(y, es, CapVerdict);
    }
  }
}
