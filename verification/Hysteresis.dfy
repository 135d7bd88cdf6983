/** Two-threshold switches: each sample turns the switch on, turns it off or
    leaves it as it is. */
module Hysteresis {
  datatype Verdict = On | Off | Hold

  function Settle(now: bool, v: Verdict): bool {
    match v
    case On => true
    case Off => false
    case Hold => now
  }

  /** The switch after a run of samples. */
  function After(initial: bool, vs: seq<Verdict>): bool {
    if vs == [] then initial else Settle(After(initial, vs[..|vs| - 1]), vs[|vs| - 1])
  }

  /** The position of the latest sample that is not `Hold`, or -1. */
  function Latest(vs: seq<Verdict>): (k: int)
    ensures -1 <= k < |vs|
    ensures k >= 0 ==> vs[k] != Hold
    ensures forall j :: k < j < |vs| ==> vs[j] == Hold
  {
    if vs == [] then -1 else if vs[|vs| - 1] != Hold then |vs| - 1 else Latest(vs[..|vs| - 1])
  }

  /** The latest decisive sample alone decides the switch. */
  lemma {:induction false} LatestDecides(initial: bool, vs: seq<Verdict>)
    ensures var k := Latest(vs); After(initial, vs) == if k < 0 then initial else vs[k] == On
  {
    if vs != [] {
      LatestDecides(initial, vs[..|vs| - 1]);
    }
  }
}
