/** The software JEITA machine: which battery temperature zone the charger is
    in, and what it may do there (mtk_charger.c). */
module Jeita {
  import opened Hysteresis

  const BELOW_T0 := 0
  const T0_TO_T1 := 1
  const T1_TO_T2 := 2
  const T2_TO_T3 := 3
  const T3_TO_T4 := 4
  const ABOVE_T4 := 5

  datatype Thresholds = Thresholds(
    t4: int, t4MinusX: int, t3: int, t3MinusX: int, t2: int, t2PlusX: int,
    t1: int, t1PlusX: int, t0: int, t0PlusX: int)

  /** Charging voltage, termination current and recharge voltage of a zone. */
  datatype Limits = Limits(cv: int, iterm: int, rechargeVol: int)

  const NO_LIMITS := Limits(0, 0, 0)

  // ----- Specification -----

  predicate IsZone(sm: int) {
    BELOW_T0 <= sm <= ABOVE_T4
  }

  predicate Forbids(sm: int) {
    sm == ABOVE_T4 || sm == BELOW_T0
  }

  /** The zone a temperature belongs to when the past does not matter. */
  function Band(temp: int, th: Thresholds): (sm: int)
    ensures IsZone(sm)
  {
    if temp >= th.t4 then ABOVE_T4
    else if temp > th.t3 then T3_TO_T4
    else if temp >= th.t2 then T2_TO_T3
    else if temp >= th.t1 then T1_TO_T2
    else if temp >= th.t0 then T0_TO_T1
    else BELOW_T0
  }

  /** The current zone is kept although the temperature is in another band. */
  predicate Held(sm: int, temp: int, th: Thresholds) {
    var band := Band(temp, th);
    || (band == T3_TO_T4 && sm == ABOVE_T4 && temp >= th.t4MinusX)
    || (band == T2_TO_T3 && sm == T3_TO_T4 && temp >= th.t3MinusX)
    || (band == T2_TO_T3 && sm == T1_TO_T2 && temp <= th.t2PlusX)
    || (band == T1_TO_T2 && (sm == T0_TO_T1 || sm == BELOW_T0) && temp <= th.t1PlusX)
    || (band == T0_TO_T1 && sm == BELOW_T0 && temp <= th.t0PlusX)
  }

  function NextZone(sm: int, temp: int, th: Thresholds): int {
    if Held(sm, temp, th) then sm else Band(temp, th)
  }

  /** The limits in force in a zone; the normal zone sets none. */
  function LimitsIn(sm: int, limits: seq<Limits>): Limits
    requires IsZone(sm) && |limits| == 6
  {
    if sm == T2_TO_T3 then NO_LIMITS else limits[sm]
  }

  // ----- The machine -----

  class SwJeita {
    var sm: int
    var preSm: int
    var charging: bool
    var current: Limits

    constructor (sm: int)
      ensures this.sm == sm && charging
    {
      this.sm, preSm, charging, current := sm, sm, true, NO_LIMITS;
    }

    /** One step.  `limits` holds the configured limits by zone number. */
    method Step(temp: int, th: Thresholds, limits: seq<Limits>)
      requires |limits| == 6
      modifies this
      ensures preSm == old(sm) && sm == NextZone(old(sm), temp, th)
      ensures charging <==> sm != ABOVE_T4 && sm != BELOW_T0
      ensures 0 <= sm <= 5 && current == if sm == T2_TO_T3 then Limits(0, 0, 0) else limits[sm]
      ensures charging <==> !Forbids(sm)
    {
      preSm := sm;
      charging := true;
      if temp >= th.t4 {
        sm := ABOVE_T4;
        charging := false;
      } else if temp > th.t3 {
        if sm == ABOVE_T4 && temp >= th.t4MinusX {
          charging := false;
        } else {
          sm := T3_TO_T4;
        }
      } else if temp >= th.t2 {
        if (sm == T3_TO_T4 && temp >= th.t3MinusX) || (sm == T1_TO_T2 && temp <= th.t2PlusX) {
          // not back to normal yet
        } else {
          sm := T2_TO_T3;
        }
      } else if temp >= th.t1 {
        if (sm == T0_TO_T1 || sm == BELOW_T0) && temp <= th.t1PlusX {
          if sm == BELOW_T0 {
            charging := false;
          }
        } else {
          sm := T1_TO_T2;
        }
      } else if temp >= th.t0 {
        if sm == BELOW_T0 && temp <= th.t0PlusX {
          charging := false;
        } else {
          sm := T0_TO_T1;
        }
      } else {
        sm := BELOW_T0;
        charging := false;
      }
      if sm != T2_TO_T3 {
        if sm == ABOVE_T4 {
          current := limits[ABOVE_T4];
        } else if sm == T3_TO_T4 {
          current := limits[T3_TO_T4];
        } else if sm == T1_TO_T2 {
          current := limits[T1_TO_T2];
        } else if sm == T0_TO_T1 {
          current := limits[T0_TO_T1];
        } else if sm == BELOW_T0 {
          current := limits[BELOW_T0];
        } else {
          assert false;  // the fallback for other zone numbers is never reached
        }
      } else {
        current := NO_LIMITS;
      }
    }
  }

  // ----- Runs -----

  function Run(sm: int, temps: seq<int>, th: Thresholds): int {
    if temps == [] then sm else NextZone(Run(sm, temps[..|temps| - 1], th), temps[|temps| - 1], th)
  }

  /** One sample brings the machine into one of the six zones, whatever number it
      started from, and a repeated sample changes nothing. */
  lemma SettlesAtOnce(sm: int, temp: int, th: Thresholds)
    ensures IsZone(NextZone(sm, temp, th))
    ensures NextZone(NextZone(sm, temp, th), temp, th) == NextZone(sm, temp, th)
  {
  }

  /** For thresholds in order, the temperatures that lead into each zone: its own band,
      except what a neighbour still holds, and what it holds itself of the next band. */
  lemma ZoneOf(sm: int, temp: int, th: Thresholds)
    requires th.t0 <= th.t1 <= th.t2 <= th.t3 <= th.t4
    ensures var z := NextZone(sm, temp, th);
            && (z == 5 <==> temp >= th.t4 || (sm == 5 && temp > th.t3 && temp >= th.t4MinusX))
            && (z == 4 <==>
                  || (th.t3 < temp < th.t4 && !(sm == 5 && temp >= th.t4MinusX))
                  || (sm == 4 && th.t2 <= temp <= th.t3 && temp < th.t4 && temp >= th.t3MinusX))
            && (z == 3 <==>
                  && th.t2 <= temp <= th.t3 && temp < th.t4
                  && !(sm == 4 && temp >= th.t3MinusX) && !(sm == 2 && temp <= th.t2PlusX))
            && (z == 2 <==>
                  || (th.t1 <= temp < th.t2 && !((sm == 0 || sm == 1) && temp <= th.t1PlusX))
                  || (sm == 2 && th.t2 <= temp <= th.t3 && temp < th.t4 && temp <= th.t2PlusX))
            && (z == 1 <==>
                  || (th.t0 <= temp < th.t1 && !(sm == 0 && temp <= th.t0PlusX))
                  || (sm == 1 && th.t1 <= temp < th.t2 && temp <= th.t1PlusX))
            && (z == 0 <==>
                  || temp < th.t0
                  || (sm == 0 && th.t0 <= temp < th.t1 && temp <= th.t0PlusX)
                  || (sm == 0 && th.t1 <= temp < th.t2 && temp <= th.t1PlusX))
  {
  }

  /** The hot zone is left only below its lower threshold, for every sample,
      exactly when that threshold is above the next band or not below t4. */
  lemma HotZoneExit(th: Thresholds)
    ensures (forall temp :: NextZone(ABOVE_T4, temp, th) != ABOVE_T4 ==> temp < th.t4MinusX)
       <==> (th.t3 < th.t4MinusX || th.t4 <= th.t4MinusX)
  {
    if th.t4MinusX <= th.t3 && th.t4MinusX < th.t4 {
      assert NextZone(ABOVE_T4, th.t4MinusX, th) != ABOVE_T4;
    }
  }

  function HotVerdict(temp: int, th: Thresholds): Verdict {
    if temp >= th.t4 then On else if temp < th.t4MinusX then Off else Hold
  }

  function HotVerdicts(temps: seq<int>, th: Thresholds): (vs: seq<Verdict>)
    ensures |vs| == |temps| && forall k :: 0 <= k < |temps| ==> vs[k] == HotVerdict(temps[k], th)
  {
    seq(|temps|, k requires 0 <= k < |temps| => HotVerdict(temps[k], th))
  }

  /** Over any run of temperatures the machine is in the hot zone exactly when
      the latest sample outside [t4MinusX, t4) was not below t4. */
  lemma {:induction false} HotZoneRun(sm: int, temps: seq<int>, th: Thresholds)
    requires th.t3 < th.t4MinusX <= th.t4
    ensures var k := Latest(HotVerdicts(temps, th));
            && (Run(sm, temps, th) == ABOVE_T4) == After(sm == ABOVE_T4, HotVerdicts(temps, th))
            && (Run(sm, temps, th) == ABOVE_T4) == if k < 0 then sm == ABOVE_T4 else temps[k] >= th.t4
  {
    var vs := HotVerdicts(temps, th);
    LatestDecides(sm == ABOVE_T4, vs);
    if temps != [] {
      HotZoneRun(sm, temps[..|temps| - 1], th);
      assert vs[..|temps| - 1] == HotVerdicts(temps[..|temps| - 1], th);
    }
  }

  predicate LeavesCold(temp: int, th: Thresholds) {
    NextZone(BELOW_T0, temp, th) != BELOW_T0
  }

  /** If some temperature ends the cold zone, so does every higher one: this holds
      exactly when no temperature of the band above t0 ends it, or the band above
      t1 never holds it.  Otherwise the machine resumes charging in the colder
      band but keeps it forbidden in the warmer one. */
  lemma ColdZoneExitMonotone(th: Thresholds)
    requires th.t0 <= th.t1 <= th.t2 <= th.t3 <= th.t4
    ensures (forall a, b | a <= b && LeavesCold(a, th) :: LeavesCold(b, th))
       <==> (th.t0 == th.t1 || th.t0PlusX >= th.t1 - 1 || th.t1PlusX < th.t1 || th.t1 == th.t2)
  {
    if th.t0 < th.t1 < th.t2 && th.t0PlusX < th.t1 - 1 && th.t1 <= th.t1PlusX {
      assert LeavesCold(th.t1 - 1, th) && !LeavesCold(th.t1, th);
    }
  }
}
