/** The charging gate: temperature, bus voltage, commands, timers and the
    charging policy together decide whether the battery may be charged
    (mtk_charger.c). */
module ChargeGate {
  import opened Hysteresis
  import J = Jeita
  import P = SmartCharging
  import R = SmartChargingRuns

  datatype Thermal = TempLow | TempNormal | TempHigh

  datatype ThermalLimits = ThermalLimits(
    enableMin: bool, min: int, minPlusX: int, max: int, maxMinusX: int)

  /** What one pass of the gate reads. */
  datatype Inputs = Inputs(
    chargerPresent: bool, temp: int, vbus: int, cmdDischarging: bool, safetyTimeout: bool,
    vbusOv: bool, dpdmOv: bool, policy: P.Inputs)

  datatype Config = Config(
    swJeita: bool, thresholds: J.Thresholds, limits: seq<J.Limits>, thermal: ThermalLimits, maxVoltage: int)

  // ----- Specification -----

  predicate Cold(sm: Thermal, temp: int, l: ThermalLimits) {
    l.enableMin && (temp < l.min || (sm == TempLow && temp < l.minPlusX))
  }

  predicate Hot(sm: Thermal, temp: int, l: ThermalLimits) {
    temp >= l.max || (sm == TempHigh && temp >= l.maxMinusX)
  }

  function NextThermal(sm: Thermal, temp: int, l: ThermalLimits): Thermal {
    if Cold(sm, temp, l) then TempLow
    else if Hot(sm, temp, l) then TempHigh
    else if sm == TempLow && !l.enableMin then TempLow
    else TempNormal
  }

  datatype State = State(
    zone: int, thermal: Thermal, latches: P.Latches, usbType: int, canCharging: bool, chipEnabled: bool)
  {
    function System(): P.System {
      P.System(latches, usbType)
    }
  }

  /** How a policy call that takes the latches from `p` to `t` moves the chip: it is
      told of every change of the stop latch, and turned on only to end a stop. */
  predicate Commanded(p: P.Latches, t: P.Latches, was: bool, now: bool) {
    && (now == was || now == !t.disableCharger)
    && (p.disableCharger != t.disableCharger ==> now == !t.disableCharger)
    && (now && !was ==> p.disableCharger || p.chgen)
  }

  /** The temperature machine in use permits charging on this sample. */
  predicate TemperatureOk(s: State, temp: int, c: Config) {
    if c.swJeita then !J.Forbids(J.NextZone(s.zone, temp, c.thresholds))
    else !Cold(s.thermal, temp, c.thermal) && !Hot(s.thermal, temp, c.thermal)
  }

  /** The conditions outside the temperature machine and the policy permit charging. */
  predicate LineOk(i: Inputs, c: Config) {
    i.vbus * 1000 <= c.maxVoltage && !i.cmdDischarging && !i.safetyTimeout && !i.vbusOv && !i.dpdmOv
  }

  predicate Permitted(s: State, i: Inputs, c: Config) {
    TemperatureOk(s, i.temp, c) && LineOk(i, c) && !P.Next(s.latches, i.policy).disableCharger
  }

  /** One pass of the gate takes `s` to `t`. */
  predicate GateStep(s: State, t: State, i: Inputs, c: Config) {
    if !i.chargerPresent then t == s else
      && t.zone == (if c.swJeita then J.NextZone(s.zone, i.temp, c.thresholds) else s.zone)
      && t.thermal == (if c.swJeita then s.thermal else NextThermal(s.thermal, i.temp, c.thermal))
      && t.latches == (if TemperatureOk(s, i.temp, c) then P.Next(s.latches, i.policy) else s.latches)
      && t.usbType == s.usbType
      && t.canCharging == Permitted(s, i, c)
      && (!t.canCharging ==> !t.chipEnabled)
      && (t.canCharging && !s.canCharging ==> t.chipEnabled)
      && (t.canCharging && s.canCharging ==> Commanded(s.latches, t.latches, s.chipEnabled, t.chipEnabled))
  }

  /** What happens to the charger: a pass of the gate, or an event that goes to the
      policy directly, such as a plug-in or a call at the end of the charger thread. */
  datatype Event = Pass(i: Inputs) | Policy(e: P.Event)

  /** One event takes `s` to `t`.  A plug-in permits charging until the next pass. */
  predicate EventStep(s: State, t: State, e: Event, c: Config) {
    match e
    case Pass(i) => GateStep(s, t, i, c)
    case Policy(e) =>
      && t.System() == P.Handle(s.System(), e)
      && t.zone == s.zone && t.thermal == s.thermal
      && t.canCharging == (s.canCharging || e.PlugIn?)
      && match P.Prepared(s.latches, e)
         case None => t.chipEnabled == s.chipEnabled
         case Some((p, _)) => Commanded(p, t.latches, s.chipEnabled, t.chipEnabled)
  }

  // ----- The gate -----

  class Gate {
    const config: Config
    const jeita: J.SwJeita
    const policy: P.Charger
    var thermal: Thermal
    var canCharging: bool
    var chipEnabled: bool

    function Value(): State
      reads this, jeita, policy
    {
      State(jeita.sm, thermal, policy.Value(), policy.preUsbType, canCharging, chipEnabled)
    }

    constructor (config: Config, sm: int, chipEnabled: bool)
      ensures fresh(jeita) && fresh(policy) && this.config == config
      ensures Value() == State(sm, TempNormal, P.POWER_ON, 0, false, chipEnabled)
    {
      this.config := config;
      jeita := new J.SwJeita(sm);
      policy := new P.Charger();
      this.thermal, this.canCharging, this.chipEnabled := TempNormal, false, chipEnabled;
    }

    /** The thermal protection without JEITA. */
    method CheckThermal(temp: int) returns (charging: bool)
      modifies this`thermal
      ensures thermal == NextThermal(old(thermal), temp, config.thermal)
      ensures charging <==> !Cold(old(thermal), temp, config.thermal) && !Hot(old(thermal), temp, config.thermal)
      ensures var l := config.thermal;
              charging <==>
                && (l.enableMin ==> temp >= l.min && (old(thermal) == TempLow ==> temp >= l.minPlusX))
                && temp < l.max && (old(thermal) == TempHigh ==> temp < l.maxMinusX)
      ensures var l := config.thermal;
              var cold := l.enableMin && (temp < l.min || (old(thermal) == TempLow && temp < l.minPlusX));
              && (cold ==> thermal == TempLow) && (!cold && !charging ==> thermal == TempHigh)
              && (charging ==> thermal == if old(thermal) == TempLow && !l.enableMin then TempLow else TempNormal)
    {
      var l := config.thermal;
      if l.enableMin {
        if temp < l.min {
          thermal := TempLow;
          return false;
        } else if thermal == TempLow {
          if temp >= l.minPlusX {
            thermal := TempNormal;
          } else {
            return false;
          }
        }
      }
      if temp >= l.max {
        thermal := TempHigh;
        return false;
      } else if thermal == TempHigh {
        if temp < l.maxMinusX {
          thermal := TempNormal;
        } else {
          return false;
        }
      }
      charging := true;
    }

    /** The charger chip obeys the enable commands of a policy call. */
    method Obey(cmds: seq<P.Command>, ghost on: bool)
      requires P.EnableCharger(!on) !in cmds
      modifies this`chipEnabled
      ensures chipEnabled == if P.EnableCharger(on) in cmds then on else old(chipEnabled)
    {
      for k := 0 to |cmds|
        invariant chipEnabled == if P.EnableCharger(on) in cmds[..k] then on else old(chipEnabled)
      {
        if cmds[k].EnableCharger? {
          assert cmds[k] in cmds;
          chipEnabled := cmds[k].on;
        }
      }
      assert cmds[..|cmds|] == cmds;
    }

    /** The temperature stage: false stops charging at once. */
    method CheckTemperature(temp: int) returns (charging: bool)
      requires |config.limits| == 6
      modifies this`thermal, jeita
      ensures charging <==> TemperatureOk(old(Value()), temp, config)
      ensures jeita.sm == if config.swJeita then J.NextZone(old(jeita.sm), temp, config.thresholds) else old(jeita.sm)
      ensures thermal == if config.swJeita then old(thermal) else NextThermal(old(thermal), temp, config.thermal)
    {
      if config.swJeita {
        jeita.Step(temp, config.thresholds, config.limits);
        charging := jeita.charging;
      } else {
        charging := CheckThermal(temp);
      }
    }

    lemma TemperatureMeans(s: State, temp: int, c: Config)
      ensures TemperatureOk(s, temp, c) <==>
        if c.swJeita then
          var sm := J.NextZone(s.zone, temp, c.thresholds);
          sm != J.ABOVE_T4 && sm != J.BELOW_T0
        else
          var l := c.thermal;
          && (l.enableMin ==> temp >= l.min && (s.thermal == TempLow ==> temp >= l.minPlusX))
          && temp < l.max && (s.thermal == TempHigh ==> temp < l.maxMinusX)
    {
    }

    /** The algorithm's enable hook, taken to obey. */
    method EnableCharging(on: bool)
      modifies this`chipEnabled
      ensures chipEnabled == on
    {
      chipEnabled := on;
    }

    /** One pass of the gate. */
    method CheckStatus(i: Inputs)
      requires |config.limits| == 6
      modifies this, jeita, policy
      ensures GateStep(old(Value()), Value(), i, config)
      ensures !i.chargerPresent ==> Value() == old(Value())
      // Charging is permitted exactly when nothing forbids it.
      ensures i.chargerPresent ==>
        (canCharging <==>
          && (if config.swJeita then jeita.sm != J.ABOVE_T4 && jeita.sm != J.BELOW_T0 else
                var l := config.thermal;
                && (l.enableMin ==> i.temp >= l.min && (old(thermal) == TempLow ==> i.temp >= l.minPlusX))
                && i.temp < l.max && (old(thermal) == TempHigh ==> i.temp < l.maxMinusX))
          && i.vbus * 1000 <= config.maxVoltage
          && !i.cmdDischarging && !i.safetyTimeout && !i.vbusOv && !i.dpdmOv
          && !policy.disableCharger)
      ensures i.chargerPresent && !canCharging ==> !chipEnabled
      ensures i.chargerPresent && canCharging && (!old(canCharging) || old(policy.disableCharger)) ==> chipEnabled
    {
      hide P.Next, J.NextZone, NextThermal, TemperatureOk;
      if !i.chargerPresent {
        return;
      }
      TemperatureMeans(Value(), i.temp, config);
      var charging := CheckTemperature(i.temp);
      if charging {
        var _, cmds := policy.SmartCharging(i.policy);
        Obey(cmds, !policy.disableCharger);
        if i.vbus * 1000 > config.maxVoltage {
          charging := false;
        } else {
          if i.cmdDischarging {
            charging := false;
          }
          if i.safetyTimeout {
            charging := false;
          }
          if i.vbusOv {
            charging := false;
          }
          if i.dpdmOv {
            charging := false;
          }
          if policy.disableCharger {
            charging := false;
          }
        }
      }
      if charging != canCharging {
        EnableCharging(charging);
      } else if !charging && chipEnabled {
        EnableCharging(charging);
      }
      canCharging := charging;
    }

    /** An event that goes to the policy directly. */
    method Notify(e: P.Event)
      modifies this, policy
      ensures EventStep(old(Value()), Value(), Policy(e), config)
    {
      hide P.Next;
      var cmds := [];
      match e {
        case Call(i) =>
          var _, told := policy.SmartCharging(i);
          cmds := told;
        case PlugIn(i) =>
          canCharging := true;
          cmds := policy.PlugIn(i);
        case PowerChanged(usbType) =>
          policy.ExternalPowerChanged(usbType);
        case Sysfs(code, online, i) =>
          cmds := policy.SysfsNotifyEvent(code, online, i);
      }
      Obey(cmds, !policy.disableCharger);
    }
  }

  // ----- Runs -----

  ghost predicate IsRun(ss: seq<State>, es: seq<Event>, c: Config) {
    && |ss| == |es| + 1
    && forall k :: 0 <= k < |es| ==> EventStep(ss[k], ss[k + 1], es[k], c) && (es[k].Policy? ==> R.Raised(es[k].e))
  }

  lemma EventKeepsConsistent(s: State, t: State, e: Event, c: Config)
    requires EventStep(s, t, e, c) && R.Consistent(s.latches) && (e.Policy? ==> R.Raised(e.e))
    ensures R.Consistent(t.latches)
  {
    hide P.Next, P.Handle, R.Consistent;
    match e
    case Pass(i) => R.NextKeepsConsistent(s.latches, i.policy);
    case Policy(e) => R.HandleKeepsConsistent(s.System(), e);
  }

  /** Over any run of events the policy latches are consistent. */
  lemma {:induction false} RunKeepsConsistent(ss: seq<State>, es: seq<Event>, c: Config, n: nat)
    requires IsRun(ss, es, c) && n <= |es| && R.Consistent(ss[0].latches)
    ensures R.Consistent(ss[n].latches)
  {
    hide EventStep, R.Consistent;
    if n > 0 {
      RunKeepsConsistent(ss, es, c, n - 1);
      EventKeepsConsistent(ss[n - 1], ss[n], es[n - 1], c);
    }
  }

  /** Over any run of events, while the policy's stop latch is set the chip is off. */
  lemma {:induction false} StopMeansOff(ss: seq<State>, es: seq<Event>, c: Config, n: nat)
    requires IsRun(ss, es, c) && n <= |es|
    requires ss[0].latches.disableCharger ==> !ss[0].chipEnabled
    ensures ss[n].latches.disableCharger ==> !ss[n].chipEnabled
  {
    hide P.Next, P.Prepared;
    if n > 0 {
      StopMeansOff(ss, es, c, n - 1);
      var s, e := ss[n - 1], es[n - 1];
      assert EventStep(s, ss[n], e, c);
      if e.Policy? {
        PreparedOnlyLifts(s.latches, e.e);
      }
    }
  }

  lemma PreparedOnlyLifts(s: P.Latches, e: P.Event)
    ensures var prepared := P.Prepared(s, e);
            prepared.Some? && prepared.value.0.disableCharger ==> s.disableCharger
    ensures P.Prepared(s, e).None? ==>
      forall y: P.System :: y.latches == s && P.Handle(y, e).latches.disableCharger ==> s.disableCharger
  {
  }

  /** The chip is on if charging is permitted, unless the policy has stopped it since. */
  predicate Follows(s: State) {
    s.canCharging && !s.latches.disableCharger ==> s.chipEnabled
  }

  /** An event lifts a stop, or permits charging, while the chip is off. */
  predicate LiftsWhileOff(s: State, e: Event) {
    e.Policy? && !s.chipEnabled && R.Lifts(s.System(), e.e) && (s.canCharging || e.e.PlugIn?)
  }

  /** Over any run in which no event lifts a stop while the chip is off, the chip
      is on after a pass of the gate exactly when the gate permits charging. */
  lemma {:induction false} ChipFollowsGate(ss: seq<State>, es: seq<Event>, c: Config, n: nat)
    requires IsRun(ss, es, c) && n <= |es| && Follows(ss[0])
    requires forall k :: 0 <= k < n ==> !LiftsWhileOff(ss[k], es[k])
    ensures Follows(ss[n])
    ensures n > 0 && es[n - 1].Pass? && es[n - 1].i.chargerPresent ==> ss[n].chipEnabled == ss[n].canCharging
  {
    hide P.Next, P.Prepared;
    if n > 0 {
      ChipFollowsGate(ss, es, c, n - 1);
      var s, e := ss[n - 1], es[n - 1];
      assert EventStep(s, ss[n], e, c) && !LiftsWhileOff(s, e);
      if e.Policy? {
        PreparedKeeps(s.System(), e.e);
      }
    }
  }

  /** An event that does not lift a stop leaves the stop latch to the policy call. */
  lemma PreparedKeeps(y: P.System, e: P.Event)
    ensures var prepared := P.Prepared(y.latches, e);
            !R.Lifts(y, e) ==>
              if prepared.Some? then prepared.value.0.disableCharger == y.latches.disableCharger
              else P.Handle(y, e).latches == y.latches
  {
  }

  /** The condition is exact: once an event has lifted a stop while the chip was
      off, and the policy has not stopped again, the next pass that permits
      charging leaves the chip off. */
  lemma LiftedWhileOff(s: State, t: State, u: State, e: Event, i: Inputs, c: Config)
    requires LiftsWhileOff(s, e) && EventStep(s, t, e, c) && R.Consistent(t.latches) && !t.latches.disableCharger
    requires GateStep(t, u, i, c) && u.canCharging
    ensures !u.chipEnabled
  {
    hide P.Next;
  }

  /** Only the bypass mode has a say in this pass. */
  predicate BypassDecides(s: State, i: Inputs, c: Config) {
    && i.chargerPresent && TemperatureOk(s, i.temp, c) && LineOk(i, c)
    && P.BypassOn(i.policy) && !P.Protects(i.policy.protection) && !P.Protects(i.policy.protectionEu)
  }

  /** How an event moves the bypass phase: not at all if it does not reach the policy. */
  function Sample(s: State, e: Event, c: Config): Verdict {
    match e
    case Pass(i) => if i.chargerPresent && TemperatureOk(s, i.temp, c) then P.PhaseVerdict(i.policy) else Hold
    case Policy(e) => R.EventVerdict(e)
  }

  function Samples(ss: seq<State>, es: seq<Event>, c: Config): (vs: seq<Verdict>)
    requires |ss| >= |es|
    ensures |vs| == |es| && forall k :: 0 <= k < |es| ==> vs[k] == Sample(ss[k], es[k], c)
  {
    seq(|es|, k requires 0 <= k < |es| => Sample(ss[k], es[k], c))
  }

  /** Over any run of events the bypass phase follows the latest sample outside
      its interval of those that reached the policy. */
  lemma {:induction false} PhaseOverRun(ss: seq<State>, es: seq<Event>, c: Config, n: nat)
    requires IsRun(ss, es, c) && n <= |es|
    ensures ss[n].latches.phase == After(ss[0].latches.phase, Samples(ss[..n], es[..n], c))
  {
    hide P.Next, P.Handle, P.PhaseVerdict, TemperatureOk, R.EventVerdict, Permitted;
    if n > 0 {
      PhaseOverRun(ss, es, c, n - 1);
      var s, e := ss[n - 1], es[n - 1];
      assert EventStep(s, ss[n], e, c);
      match e {
        case Pass(i) => R.NextPhase(s.latches, i.policy);
        case Policy(e) => R.HandleMovesPhase(s.System(), e);
      }
      assert Samples(ss[..n], es[..n], c)[..n - 1] == Samples(ss[..n - 1], es[..n - 1], c);
    }
  }

  /** The feature as its user sees it: after any run of events, a pass in which
      nothing else forbids charging charges the battery exactly when the latest
      level outside the bypass interval was below it. */
  lemma BypassGate(ss: seq<State>, es: seq<Event>, c: Config)
    requires IsRun(ss, es, c) && es != [] && R.Consistent(ss[0].latches)
    requires var n := |es| - 1; es[n].Pass? && BypassDecides(ss[n], es[n].i, c)
    ensures var n := |es|;
            var k := Latest(Samples(ss[..n], es, c));
            ss[n].canCharging == if k < 0 then ss[0].latches.phase else Sample(ss[k], es[k], c) == On
  {
    hide P.Next, P.Handle, P.PhaseVerdict, R.EventVerdict, R.Consistent, Sample;
    var n := |es|;
    var s, i := ss[n - 1], es[n - 1].i;
    RunKeepsConsistent(ss, es, c, n - 1);
    assert EventStep(s, ss[n], es[n - 1], c);
    R.BypassSteersCharging(s.latches, i.policy);
    PhaseOverRun(ss, es, c, n);
    assert es[..n] == es;
    LatestDecides(ss[0].latches.phase, Samples(ss[..n], es, c));
  }
}
