/** The charging policy: battery protection windows, input suspend and the
    bypass mode that keeps the battery between two levels (mtk_charger.c). */
module SmartCharging {
  import opened Wrappers
  import opened Arithmetic
  import opened Hysteresis

  /** The bypass setting cached by the fuel gauge driver. */
  datatype Bypass = Bypass(enable: bool, low: nat, high: nat)

  /** What one call reads from its surroundings.  `stopCharging` is the sysfs
      value `charging_enable`, whose non-zero values mean "do not charge". */
  datatype Inputs = Inputs(
    soc: int, protection: int, protectionEu: int, suspend: bool, stopCharging: bool, bypass: Option<Bypass>)

  datatype Latches = Latches(
    disableCharger: bool, chgen: bool, chgenEu: bool, protectionDischg: bool, phase: bool)

  datatype Command = EnableCharger(on: bool) | ForcePowerPathOff(off: bool) | NotifyDischarge | NotifyRecharge

  datatype Solution = Ignore | Keep | Disable | Reduce

  function AtLeast(x: int, least: int): int {
    if x < least then least else x
  }

  predicate Protects(setting: int) {
    CDiv(setting, 100000) != 0
  }

  function WindowLow(setting: int): int {
    AtLeast(CDiv(setting - 100000, 1000), 40)
  }

  function WindowHigh(setting: int): int {
    AtLeast(setting - 100000 - CDiv(setting - 100000, 1000) * 1000, 60)
  }

  /** The upper level of the second protection setting; zero while it is off. */
  function EuHigh(setting: int): int {
    if Protects(setting) then AtLeast(setting - 100000 - CDiv(setting - 100000, 1000) * 1000, 80) else 0
  }

  /** A setting packed as 100000 + low * 1000 + high is on and stands for these levels,
      but for at least 40, 60 and 80; it is off exactly while it has no sixth digit. */
  lemma SettingLevels(low: nat, high: nat, setting: int)
    requires low < 100 && high < 1000
    ensures var packed := 100000 + low * 1000 + high;
            && Protects(packed)
            && WindowLow(packed) == (if low < 40 then 40 else low)
            && WindowHigh(packed) == (if high < 60 then 60 else high)
            && EuHigh(packed) == (if high < 80 then 80 else high)
    ensures Protects(setting) <==> setting >= 100000 || setting <= -100000
    ensures !Protects(setting) ==> EuHigh(setting) == 0
  {
    var packed := 100000 + low * 1000 + high;
    assert CDiv(packed - 100000, 1000) == low;
  }

  // ----- Specification -----

  predicate BypassOn(i: Inputs) {
    i.bypass.Some? && i.bypass.value.enable
  }

  /** How a sample moves the bypass phase "charging up to the high level". */
  function PhaseVerdict(i: Inputs): Verdict {
    if !BypassOn(i) then Hold
    else if i.soc < i.bypass.value.low then On
    else if i.soc >= i.bypass.value.high then Off
    else Hold
  }

  /** The inputs as the bypass mode overrides them in phase `phase`. */
  function Effective(i: Inputs, phase: bool): Inputs {
    if !BypassOn(i) then i
    else i.(suspend := !phase && i.soc >= i.bypass.value.high, stopCharging := !phase)
  }

  /** The latches after one call, by protection regime. */
  function Next(s: Latches, i: Inputs): Latches {
    var phase := Settle(s.phase, PhaseVerdict(i));
    Steer(s.(phase := phase), Effective(i, phase))
  }

  function Steer(s: Latches, i: Inputs): Latches {
    if i.suspend then Suspend(s)
    else if Protects(i.protection) then Window(s, i.soc, WindowLow(i.protection), WindowHigh(i.protection))
    else if Protects(i.protectionEu) || i.stopCharging then Cap(s, i.soc, EuHigh(i.protectionEu), i.stopCharging)
    else if s.chgen || s.disableCharger then s.(disableCharger := false, chgen := false, chgenEu := false)
    else s
  }

  function Suspend(s: Latches): Latches {
    if s.chgen then s else s.(disableCharger := true, chgen := true, chgenEu := false)
  }

  function Window(s: Latches, soc: int, low: int, high: int): Latches {
    var discharge := soc >= high && !s.chgen && !s.disableCharger;
    var t :=
      if discharge then s.(disableCharger := true, chgen := true, protectionDischg := true)
      else if soc <= low && s.disableCharger then s.(disableCharger := false, chgen := false)
      else s;
    t.(chgen := t.chgen && !(low < soc <= high), chgenEu := false)
  }

  function Cap(s: Latches, soc: int, high: int, stop: bool): Latches {
    if ((soc >= high && high != 100) || stop) && !s.chgenEu then
      s.(disableCharger := true, chgen := false, protectionDischg := false, chgenEu := true)
    else if (s.chgen || s.disableCharger) && ((soc * 100 <= high * 95 && !stop) || s.protectionDischg) then
      s.(disableCharger := false, chgen := false, chgenEu := false)
    else
      s.(chgen := false)
  }

  // ----- Events -----

  /** Everything that moves the latches: a periodic call, a plug-in, a change of
      the external power supply, and a sysfs notification. */
  datatype Event =
    | Call(i: Inputs)
    | PlugIn(i: Inputs)
    | PowerChanged(usbType: int)
    | Sysfs(code: nat, online: bool, i: Inputs)

  datatype System = System(latches: Latches, preUsbType: int)

  function Cleared(s: Latches): Latches {
    s.(disableCharger := false, chgen := false, chgenEu := false)
  }

  /** The latches on which the handler of an event calls the policy, if it does. */
  function Prepared(s: Latches, e: Event): Option<(Latches, Inputs)> {
    match e
    case Call(i) => Some((s, i))
    case PlugIn(i) => Some((Cleared(s), i))
    case PowerChanged(_) => None
    case Sysfs(code, online, i) =>
      if !online then None
      else if code == 1 then Some((s.(chgen := false, disableCharger := false), i))
      else if code == 2 then Some((s.(chgenEu := false), i))
      else Some((s, i))
  }

  function Handle(y: System, e: Event): System {
    if e.PowerChanged? then
      System(if y.preUsbType != e.usbType && e.usbType != 0 then Cleared(y.latches) else y.latches, e.usbType)
    else match Prepared(y.latches, e)
      case None => y
      case Some((s, i)) => y.(latches := Next(s, i))
  }

  /** The commands a call sends to the charger chip agree with the latch it
      leaves: the chip is told of every change, and told nothing else. */
  predicate Obeyed(s: Latches, t: Latches, cmds: seq<Command>) {
    && (EnableCharger(t.disableCharger) !in cmds)
    && (s.disableCharger != t.disableCharger ==> EnableCharger(!t.disableCharger) in cmds)
    && (NotifyDischarge in cmds <==> EnableCharger(false) in cmds)
    && (NotifyRecharge in cmds <==> EnableCharger(true) in cmds)
    && (EnableCharger(true) in cmds ==> s.disableCharger || s.chgen)
    && (ForcePowerPathOff(!t.disableCharger) !in cmds)
  }

  /** The result names what the chip was told. */
  predicate Reported(ret: Solution, cmds: seq<Command>) {
    && (ret == Reduce <==> NotifyRecharge in cmds)
    && (NotifyDischarge in cmds ==> ret == Disable)
    && (ret == Ignore ==> cmds == [])
  }

  /** A stop turns the chip off and is answered with `Disable`, its end turns it on
      and is answered with `Reduce`; nothing else turns it on. */
  lemma AnswersTell(s: Latches, t: Latches, ret: Solution, cmds: seq<Command>)
    requires Obeyed(s, t, cmds) && Reported(ret, cmds)
    ensures !s.disableCharger && t.disableCharger ==>
      EnableCharger(false) in cmds && NotifyDischarge in cmds && ret == Disable
    ensures s.disableCharger && !t.disableCharger ==>
      EnableCharger(true) in cmds && NotifyRecharge in cmds && ret == Reduce
    ensures EnableCharger(true) in cmds <==> ret == Reduce
    ensures t.disableCharger ==> EnableCharger(true) !in cmds
    ensures !t.disableCharger ==> EnableCharger(false) !in cmds
    ensures ret == Ignore ==> cmds == []
  {
  }

  // ----- The policy object -----

  class Charger {
    var disableCharger: bool
    var chgDevChgen: bool
    var chgDevChgenEu: bool
    var protectionDischg: bool
    var isBypassChargingPhase: bool
    var preUsbType: int

    function Value(): Latches
      reads this
    {
      Latches(disableCharger, chgDevChgen, chgDevChgenEu, protectionDischg, isBypassChargingPhase)
    }

    function Whole(): System
      reads this
    {
      System(Value(), preUsbType)
    }

    constructor ()
      ensures Whole() == System(POWER_ON, 0)
    {
      disableCharger, chgDevChgen, chgDevChgenEu := false, false, false;
      preUsbType := 0;
      protectionDischg, isBypassChargingPhase := false, false;
    }

    /** The bypass block: moves the phase and overrides the suspend and stop inputs. */
    method ApplyBypass(i: Inputs) returns (isInputSuspend: bool, chargingEnable: bool)
      modifies this`isBypassChargingPhase
      ensures isBypassChargingPhase == Settle(old(isBypassChargingPhase), PhaseVerdict(i))
      ensures Effective(i, isBypassChargingPhase) == i.(suspend := isInputSuspend, stopCharging := chargingEnable)
      ensures i.bypass == None || !i.bypass.value.enable ==>
        && isInputSuspend == i.suspend && chargingEnable == i.stopCharging
        && isBypassChargingPhase == old(isBypassChargingPhase)
      ensures i.bypass.Some? && i.bypass.value.enable ==>
        (var low, high := i.bypass.value.low, i.bypass.value.high;
         && (i.soc < low ==> isBypassChargingPhase)
         && (low <= i.soc && i.soc >= high ==> !isBypassChargingPhase)
         && (low <= i.soc < high ==> isBypassChargingPhase == old(isBypassChargingPhase))
         && (chargingEnable <==> !isBypassChargingPhase)
         && (isInputSuspend <==> !isBypassChargingPhase && i.soc >= high))
    {
      isInputSuspend, chargingEnable := i.suspend, i.stopCharging;
      if i.bypass.Some? && i.bypass.value.enable {
        var bps := i.bypass.value;
        var currentSoc := CDiv(i.soc * 100, 100);
        if currentSoc < bps.low {
          isBypassChargingPhase := true;
        } else if currentSoc >= bps.high {
          isBypassChargingPhase := false;
        }
        if isBypassChargingPhase {
          chargingEnable := false;
          isInputSuspend := false;
        } else {
          if currentSoc >= bps.high {
            chargingEnable := true;
            isInputSuspend := true;
          } else {
            chargingEnable := true;
            isInputSuspend := false;
          }
        }
      }
    }

    /** Decodes a protection setting; the levels stay zero while it is off. */
    method DecodeProtection(setting: int, leastLow: int, leastHigh: int) returns (on: bool, low: int, high: int)
      ensures on == Protects(setting)
      ensures on ==> low == AtLeast(CDiv(setting - 100000, 1000), leastLow)
      ensures on ==> high == AtLeast(setting - 100000 - CDiv(setting - 100000, 1000) * 1000, leastHigh)
      ensures !on ==> low == high == 0
    {
      on, low, high := CDiv(setting, 100000) != 0, 0, 0;
      if on {
        low := CDiv(setting - 100000, 1000);
        high := setting - 100000 - low * 1000;
        if low < leastLow {
          low := leastLow;
        }
        if high < leastHigh {
          high := leastHigh;
        }
      }
    }

    /** One call of the policy. */
    method SmartCharging(i: Inputs) returns (ret: Solution, cmds: seq<Command>)
      modifies this
      ensures preUsbType == old(preUsbType)
      ensures Value() == Next(old(Value()), i)
      ensures Obeyed(old(Value()), Value(), cmds) && Reported(ret, cmds)
    {
      hide Window, Cap, CDiv, PhaseVerdict, Effective, Settle;
      var isInputSuspend, chargingEnable := ApplyBypass(i);
      var isProtection, protectionLow, protectionHigh := DecodeProtection(i.protection, 40, 60);
      var isProtectionEu, _, protectionEuHigh := DecodeProtection(i.protectionEu, 0, 80);
      var soc100 := i.soc * 100;
      ret, cmds := Keep, [];
      if isInputSuspend && !chgDevChgen {
        disableCharger := true;
        chgDevChgen := true;
        chgDevChgenEu := false;
        cmds := [EnableCharger(false), ForcePowerPathOff(true), NotifyDischarge];
        ret := Disable;
      } else if isProtection && !isInputSuspend {
        ret, cmds := KeepWindow(i.soc, protectionLow, protectionHigh);
      } else if (isProtectionEu || chargingEnable) && !isInputSuspend && !isProtection {
        ret, cmds := KeepCap(i.soc, protectionEuHigh, chargingEnable);
      } else if !isProtectionEu && !isInputSuspend && !isProtection
                && (chgDevChgen || disableCharger) && !chargingEnable
      {
        disableCharger := false;
        chgDevChgen := false;
        chgDevChgenEu := false;
        cmds := [EnableCharger(true), NotifyRecharge];
        ret := Reduce;
      } else {
        ret := Ignore;
      }
    }

    /** A charger has been plugged in. */
    method PlugIn(i: Inputs) returns (cmds: seq<Command>)
      modifies this
      ensures Whole() == Handle(old(Whole()), Event.PlugIn(i))
      ensures preUsbType == old(preUsbType)
      ensures Value() == Next(old(Value()).(disableCharger := false, chgen := false, chgenEu := false), i)
      ensures Obeyed(Cleared(old(Value())), Value(), cmds)
    {
      chgDevChgen := false;
      disableCharger := false;
      chgDevChgenEu := false;
      var ret;
      ret, cmds := SmartCharging(i);
    }

    /** The sysfs layer reports a changed setting. */
    method SysfsNotifyEvent(code: nat, online: bool, i: Inputs) returns (cmds: seq<Command>)
      modifies this
      ensures Whole() == Handle(old(Whole()), Sysfs(code, online, i))
      ensures preUsbType == old(preUsbType)
      ensures !online ==> Value() == old(Value())
      ensures online && code == 1 ==> Value() == Next(old(Value()).(disableCharger := false, chgen := false), i)
      ensures online && code == 2 ==> Value() == Next(old(Value()).(chgenEu := false), i)
      ensures online && code != 1 && code != 2 ==> Value() == Next(old(Value()), i)
      ensures match Prepared(old(Value()), Sysfs(code, online, i))
              case None => cmds == []
              case Some((s, _)) => Obeyed(s, Value(), cmds)
    {
      if !online {
        return [];
      }
      if code == 1 {
        chgDevChgen := false;
        disableCharger := false;
      } else if code == 2 {
        chgDevChgenEu := false;
      }
      var ret;
      ret, cmds := SmartCharging(i);
    }

    /** The external supply has changed; a new non-zero type resets the latches. */
    method ExternalPowerChanged(usbType: int)
      modifies this
      ensures Whole() == Handle(old(Whole()), PowerChanged(usbType))
      ensures preUsbType == usbType
      ensures Value() ==
        if usbType == old(preUsbType) || usbType == 0 then old(Value())
        else old(Value()).(disableCharger := false, chgen := false, chgenEu := false)
    {
      if preUsbType != usbType && usbType != 0 {
        chgDevChgen := false;
        disableCharger := false;
        chgDevChgenEu := false;
      }
      preUsbType := usbType;
    }

    method KeepWindow(soc: int, low: int, high: int) returns (ret: Solution, cmds: seq<Command>)
      modifies this
      ensures preUsbType == old(preUsbType)
      ensures Value() == Window(old(Value()), soc, low, high)
      ensures Obeyed(old(Value()), Value(), cmds) && Reported(ret, cmds)
    {
      ret, cmds := Keep, [];
      var soc100 := soc * 100;
      if soc100 >= high * 100 && !chgDevChgen && !disableCharger {
        disableCharger := true;
        chgDevChgen := true;
        protectionDischg := true;
        cmds := [EnableCharger(false), ForcePowerPathOff(true), NotifyDischarge];
        ret := Disable;
      } else if soc100 <= low * 100 && disableCharger {
        disableCharger := false;
        chgDevChgen := false;
        cmds := [ForcePowerPathOff(false), EnableCharger(true), NotifyRecharge];
        ret := Reduce;
      }
      if soc100 > low * 100 && soc100 <= high * 100 && chgDevChgen {
        chgDevChgen := false;
        ret := Disable;
      }
      chgDevChgenEu := false;
    }

    method KeepCap(soc: int, high: int, stop: bool) returns (ret: Solution, cmds: seq<Command>)
      modifies this
      ensures preUsbType == old(preUsbType)
      ensures Value() == Cap(old(Value()), soc, high, stop)
      ensures Obeyed(old(Value()), Value(), cmds) && Reported(ret, cmds)
    {
      ret, cmds := Keep, [];
      var soc100 := soc * 100;
      if ((soc100 >= high * 100 && high != 100) || stop) && !chgDevChgenEu {
        disableCharger := true;
        chgDevChgen := false;
        protectionDischg := false;
        chgDevChgenEu := true;
        cmds := [EnableCharger(false), NotifyDischarge];
        ret := Disable;
      } else {
        if (chgDevChgen || disableCharger) && ((soc100 <= high * 95 && !stop) || protectionDischg) {
          disableCharger := false;
          chgDevChgen := false;
          cmds := [EnableCharger(true), NotifyRecharge];
          ret := Reduce;
          chgDevChgenEu := false;
        } else {
          chgDevChgen := false;
        }
      }
    }
  }

  const POWER_ON := Latches(false, false, false, false, false)
}
