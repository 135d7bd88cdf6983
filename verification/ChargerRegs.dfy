/** The register file of the SGM4154x charger: masked setters that share bytes,
    and the encodings of currents and voltages (sgm415xx.c, for the SGM41543D). */
module ChargerRegs {
  import opened Wrappers
  import opened Arithmetic

  type Regs = r: seq<bv8> | |r| == 16 witness seq(16, _ => 0)

  const EINVAL := -22

  datatype Field =
    | InputCurrent | Hiz | ChargeEnable | Otg | ChargeCurrent | BoostCurrent | Termination | Precharge
    | ChargeVoltage | Watchdog | SafetyTimer | BoostVoltage
  {
    function Reg(): (r: nat)
      ensures r < 16
    {
      match this
      case InputCurrent => 0x00
      case Hiz => 0x00
      case ChargeEnable => 0x01
      case Otg => 0x01
      case ChargeCurrent => 0x02
      case BoostCurrent => 0x02
      case Termination => 0x03
      case Precharge => 0x03
      case ChargeVoltage => 0x04
      case Watchdog => 0x05
      case SafetyTimer => 0x05
      case BoostVoltage => 0x06
    }

    function Mask(): bv8 {
      match this
      case InputCurrent => 0x1F
      case Hiz => 0x80
      case ChargeEnable => 0x10
      case Otg => 0x20
      case ChargeCurrent => 0x3F
      case BoostCurrent => 0x80
      case Termination => 0x0F
      case Precharge => 0xF0
      case ChargeVoltage => 0xF8
      case Watchdog => 0x30
      case SafetyTimer => 0x08
      case BoostVoltage => 0x30
    }
  }

  // ----- A record of independent fields -----

  /** A byte with the bits of `mask` taken from `val`. */
  function Merge(byte: bv8, mask: bv8, val: bv8): bv8 {
    (byte & !mask) | (val & mask)
  }

  function Part(byte: bv8, mask: bv8): bv8 {
    byte & mask
  }

  /** The registers after a masked write of a field. */
  function Store(regs: Regs, f: Field, val: bv8): Regs {
    regs[f.Reg() := Merge(regs[f.Reg()], f.Mask(), val)]
  }

  function Load(regs: Regs, f: Field): bv8 {
    Part(regs[f.Reg()], f.Mask())
  }

  /** Fields do not overlap. */
  lemma FieldsDisjoint(f: Field, g: Field)
    requires f != g && f.Reg() == g.Reg()
    ensures f.Mask() & g.Mask() == 0
  {
  }

  lemma MergedParts(byte: bv8, val: bv8, m: bv8, n: bv8)
    ensures Part(Merge(byte, m, val), m) == Part(val, m)
    ensures m & n == 0 ==> Part(Merge(byte, m, val), n) == Part(byte, n)
  {
  }

  lemma MergedRegister(regs: Regs, r: nat, m: bv8, val: bv8, r': nat, n: bv8)
    requires r < 16 && r' < 16
    ensures var now := regs[r := Merge(regs[r], m, val)];
            && Part(now[r], m) == Part(val, m)
            && (r != r' || m & n == 0 ==> Part(now[r'], n) == Part(regs[r'], n))
  {
    hide Part, Merge;
    MergedParts(regs[r], val, m, n);
  }

  lemma StoreLoad(regs: Regs, f: Field, val: bv8, g: Field)
    ensures Load(Store(regs, f, val), g) == if g == f then Part(val, f.Mask()) else Load(regs, g)
  {
    hide Field.Reg, Field.Mask, Part, Merge;
    MergedRegister(regs, f.Reg(), f.Mask(), val, g.Reg(), g.Mask());
    if f != g && f.Reg() == g.Reg() {
      FieldsDisjoint(f, g);
    }
  }

  function StoreAll(regs: Regs, ws: seq<(Field, bv8)>): Regs {
    if ws == [] then regs
    else Store(StoreAll(regs, ws[..|ws| - 1]), ws[|ws| - 1].0, ws[|ws| - 1].1)
  }

  function LastStore(ws: seq<(Field, bv8)>, f: Field): (k: int)
    ensures -1 <= k < |ws|
    ensures k >= 0 ==> ws[k].0 == f
    ensures forall j :: k < j < |ws| ==> ws[j].0 != f
  {
    if ws == [] then -1 else if ws[|ws| - 1].0 == f then |ws| - 1 else LastStore(ws[..|ws| - 1], f)
  }

  /** The register file refines a record of independent fields: after any run of
      masked writes each field holds the last value written to it. */
  lemma {:induction false} FieldsIndependent(regs: Regs, ws: seq<(Field, bv8)>, f: Field)
    ensures var k := LastStore(ws, f);
            Load(StoreAll(regs, ws), f) == if k < 0 then Load(regs, f) else Part(ws[k].1, f.Mask())
  {
    hide Load, Store, Field.Mask, Field.Reg;
    if ws != [] {
      FieldsIndependent(regs, ws[..|ws| - 1], f);
      assert LastStore(ws, f) == if ws[|ws| - 1].0 == f then |ws| - 1 else LastStore(ws[..|ws| - 1], f);
      StoreLoad(StoreAll(regs, ws[..|ws| - 1]), ws[|ws| - 1].0, ws[|ws| - 1].1, f);
    }
  }

  // ----- Encodings -----

  /** A byte shifted up by one, with a new lowest bit. */
  function Append(b: bv8, one: bool): (r: bv8)
    ensures r as nat == (2 * (b as nat) + (if one then 1 else 0)) % 256
  {
    Doubled(b);
    if one then (b << 1) | 1 else (b << 1) | 0
  }

  lemma Doubled(b: bv8)
    ensures (b << 1) as nat == 2 * (b as nat) % 256
    ensures (b << 1) | 0 == b << 1 && ((b << 1) | 1) as nat == (b << 1) as nat + 1
  {
  }

  lemma Halves(n: nat)
    ensures (2 * (n / 2 % 256) + n % 2) % 256 == n % 256
  {
    assert n == 2 * (n / 2) + n % 2;
  }

  /** A number cut to a byte, bit by bit. */
  function U8(n: nat): (b: bv8)
    ensures b as nat == n % 256
  {
    if n == 0 then 0 else
      Halves(n);
      Append(U8(n / 2), n % 2 == 1)
  }

  lemma LowPart(n: nat, m: nat, q: nat, w: nat, r: nat)
    requires m == n % 256 && m == q * w + r && r < w && (w == 16 || w == 32 || w == 64)
    ensures r == n % w
  {
  }

  lemma LowFive(b: bv8)
    ensures b as nat == ((b >> 5) as nat) * 32 + (b & 0x1F) as nat && (b & 0x1F) as nat < 32
    ensures (b & 0x1F) as nat == 31 <==> b & 0x1F == 0x1F
  {
  }

  lemma LowSix(b: bv8)
    ensures b as nat == ((b >> 6) as nat) * 64 + (b & 0x3F) as nat && (b & 0x3F) as nat < 64
  {
  }

  lemma LowFour(b: bv8)
    ensures b as nat == ((b >> 4) as nat) * 16 + (b & 0x0F) as nat && (b & 0x0F) as nat < 16
    ensures ((b << 4) & 0xF0) >> 4 == b & 0x0F
  {
  }

  lemma ShiftedOut(b: bv8)
    ensures ((b << 3) & 0xF8) >> 3 == b & 0x1F
  {
  }

  const IINDPM_MIN: nat := 100000
  const IINDPM_MAX: nat := 3800000
  const IINDPM_STEP: nat := 100000

  function InputCurrentCode(uA: nat): nat
    requires IINDPM_MIN <= uA <= IINDPM_MAX
  {
    if uA <= 3100000 then (uA - IINDPM_MIN) / IINDPM_STEP else if uA < IINDPM_MAX then 0x1E else 0x1F
  }

  function InputCurrentOf(bits: bv8): nat {
    if bits & 0x1F == 0x1F then IINDPM_MAX else (bits & 0x1F) as nat * IINDPM_STEP + IINDPM_MIN
  }

  lemma FiveBits(n: nat)
    requires n < 32
    ensures (U8(n) & 0x1F) as nat == n && (n == 31 <==> U8(n) & 0x1F == 0x1F)
  {
    hide U8;
    LowFive(U8(n));
    LowPart(n, U8(n) as nat, (U8(n) >> 5) as nat, 32, (U8(n) & 0x1F) as nat);
  }

  /** The input current limit reads back as the greatest representable value that
      does not exceed the request. */
  lemma InputCurrentRoundTrip(uA: nat, other: bv8)
    requires IINDPM_MIN <= uA <= IINDPM_MAX
    ensures var back := InputCurrentOf(U8(InputCurrentCode(uA)));
            back <= uA && (InputCurrentOf(other) <= uA ==> InputCurrentOf(other) <= back)
  {
    hide U8;
    FiveBits(InputCurrentCode(uA));
    LowFive(other);
  }

  const ICHRG_STEP: nat := 60000

  function ChargeCurrentOf(bits: bv8): nat {
    (bits & 0x3F) as nat * ICHRG_STEP
  }

  /** The nearest value in the bounds; `most` wins where they are in the wrong order. */
  function Clamp(x: int, least: nat, most: nat): (r: nat)
    ensures least <= most ==> least <= r <= most && (least <= x <= most ==> r == x)
    ensures most < least ==> r == if x < least then least else most
  {
    if x < least then least else if x > most then most else x
  }

  lemma SixBits(n: nat)
    ensures (U8(n) & 0x3F) as nat == n % 64
  {
    hide U8;
    LowSix(U8(n));
    LowPart(n, U8(n) as nat, (U8(n) >> 6) as nat, 64, (U8(n) & 0x3F) as nat);
  }

  /** The charge current reads back as the clamped request rounded down to 60 mA,
      exactly when that fits the six bits of the field. */
  lemma ChargeCurrentRoundTrip(uA: nat, most: nat)
    ensures var want := Clamp(uA, 0, most) / ICHRG_STEP;
            ChargeCurrentOf(U8(want)) == want * ICHRG_STEP <==> want < 64
  {
    hide U8;
    SixBits(Clamp(uA, 0, most) / ICHRG_STEP);
  }

  const VREG_MIN: nat := 3856000
  const VREG_STEP: nat := 32000

  type u32 = x: nat | x < U32

  /** The voltage code, in 32-bit arithmetic: a maximum below the least voltage wraps around. */
  function ChargeVoltageCode(uV: int, most: u32): nat {
    (Clamp(uV, VREG_MIN, most) - VREG_MIN) % U32 / VREG_STEP
  }

  function ChargeVoltageBits(uV: int, most: u32): bv8 {
    U8(ChargeVoltageCode(uV, most)) << 3
  }

  /** The getter writes no result for codes above 24. */
  function ChargeVoltageOf(bits: bv8): Option<nat> {
    var code := (bits & 0xF8) >> 3;
    if code == 15 then Some(4352000)
    else if code < 25 then Some(code as nat * VREG_STEP + VREG_MIN)
    else None
  }

  lemma FiveHighBits(n: nat)
    ensures (((U8(n) << 3) & 0xF8) >> 3) as nat == n % 32
  {
    hide U8;
    ShiftedOut(U8(n));
    LowFive(U8(n));
    LowPart(n, U8(n) as nat, (U8(n) >> 5) as nat, 32, (U8(n) & 0x1F) as nat);
  }

  lemma ChargeVoltageDecodes(uV: int, most: u32)
    ensures var code := ChargeVoltageCode(uV, most) % 32;
            ChargeVoltageOf(ChargeVoltageBits(uV, most)) ==
              if code == 15 then Some(4352000) else if code < 25 then Some(code * VREG_STEP + VREG_MIN) else None
  {
    hide U8, ChargeVoltageCode;
    FiveHighBits(ChargeVoltageCode(uV, most));
    CodeCompares((U8(ChargeVoltageCode(uV, most)) << 3) & 0xF8);
  }

  lemma CodeCompares(b: bv8)
    ensures (b >> 3 == 15 <==> (b >> 3) as nat == 15) && (b >> 3 < 25 <==> (b >> 3) as nat < 25)
  {
  }

  /** The wrapped code of a maximum below the least voltage. */
  function WrappedCode(most: nat): nat
    requires most < VREG_MIN
  {
    (U32 + most - VREG_MIN) / VREG_STEP % 32
  }

  lemma CodeIs(uV: int, most: u32)
    ensures VREG_MIN <= Clamp(uV, VREG_MIN, most) ==>
      ChargeVoltageCode(uV, most) == (Clamp(uV, VREG_MIN, most) - VREG_MIN) / VREG_STEP
    ensures Clamp(uV, VREG_MIN, most) < VREG_MIN ==>
      most < VREG_MIN && ChargeVoltageCode(uV, most) % 32 == WrappedCode(most)
    ensures 3824000 < most < VREG_MIN ==> WrappedCode(most) == 8 || WrappedCode(most) == 9
  {
  }

  /** The charge voltage reads back within 32 mV of the clamped request exactly
      when that is between 3.856 V and 4.656 V; otherwise the getter gives nothing
      or the code has wrapped around. */
  lemma ChargeVoltageRoundTrip(uV: nat, most: u32)
    ensures var want := Clamp(uV, VREG_MIN, most);
            var back := ChargeVoltageOf(ChargeVoltageBits(uV, most));
            (back.Some? && back.value < want + VREG_STEP && want < back.value + VREG_STEP)
            <==> VREG_MIN <= want < 4656000
  {
    hide ChargeVoltageOf, ChargeVoltageBits, ChargeVoltageCode;
    ChargeVoltageDecodes(uV, most);
    CodeIs(uV, most);
  }

  /** Two requests in order read back in order, as far as they read back at all. */
  predicate VoltageOrdered(uV: nat, uV': nat, most: u32) {
    var back, back' := ChargeVoltageOf(ChargeVoltageBits(uV, most)), ChargeVoltageOf(ChargeVoltageBits(uV', most));
    back.Some? && back'.Some? ==> back.value <= back'.value
  }

  lemma VoltagesOrdered(uV: nat, uV': nat, most: u32)
    requires most < 4880000 && uV <= uV'
    ensures VoltageOrdered(uV, uV', most)
  {
    hide ChargeVoltageOf, ChargeVoltageBits;
    ChargeVoltageDecodes(uV, most);
    ChargeVoltageDecodes(uV', most);
  }

  /** Every request reads back exactly when the maximum is below 4.656 V and, if it
      is below 3.856 V, its wrapped code is in the table. */
  lemma ChargeVoltageReadsBack(most: u32)
    ensures (forall uV: nat :: ChargeVoltageOf(ChargeVoltageBits(uV, most)).Some?)
       <==> if most < VREG_MIN then WrappedCode(most) < 25 else most < 4656000
  {
    hide ChargeVoltageOf, ChargeVoltageBits;
    forall uV: nat {
      ChargeVoltageDecodes(uV, most);
    }
    if most < VREG_MIN {
      assert ChargeVoltageCode(VREG_MIN, most) % 32 == WrappedCode(most);
      assert WrappedCode(most) >= 25 ==> ChargeVoltageOf(ChargeVoltageBits(VREG_MIN, most)) == None;
    } else if most >= 4656000 {
      assert ChargeVoltageOf(ChargeVoltageBits(4656000, most)) == None;
    }
  }

  /** A higher request never reads back as a lower voltage exactly when the maximum
      is below 4.88 V, where the code wraps around. */
  lemma ChargeVoltageMonotone(most: u32)
    ensures (forall uV: nat, uV': nat | uV <= uV' :: VoltageOrdered(uV, uV', most)) <==> most < 4880000
  {
    hide ChargeVoltageOf, ChargeVoltageBits;
    if most < 4880000 {
      forall uV: nat, uV': nat | uV <= uV' {
        VoltagesOrdered(uV, uV', most);
      }
    } else {
      ChargeVoltageDecodes(3888000, most);
      ChargeVoltageDecodes(4880000, most);
      assert !VoltageOrdered(3888000, 4880000, most);
    }
  }

  const SMALL_STEP: nat := 60000

  /** Termination and precharge current: four bits, 60 mA steps from 60 mA. */
  function SmallCurrentCode(uA: int, most: nat): nat
    requires most >= SMALL_STEP
  {
    (Clamp(uA, SMALL_STEP, most) - SMALL_STEP) / SMALL_STEP
  }

  function TerminationOf(bits: bv8): nat {
    (bits & 0x0F) as nat * SMALL_STEP + SMALL_STEP
  }

  function PrechargeOf(bits: bv8): nat {
    ((bits & 0xF0) >> 4) as nat * SMALL_STEP + SMALL_STEP
  }

  lemma FourBits(n: nat)
    requires n < 16
    ensures (U8(n) & 0x0F) as nat == n && (((U8(n) << 4) & 0xF0) >> 4) as nat == n
  {
    hide U8;
    LowFour(U8(n));
    LowPart(n, U8(n) as nat, (U8(n) >> 4) as nat, 16, (U8(n) & 0x0F) as nat);
  }

  /** Both currents read back as the clamped request rounded down to 60 mA. */
  lemma SmallCurrentRoundTrip(uA: int)
    ensures TerminationOf(U8(SmallCurrentCode(uA, 960000))) == Clamp(uA, SMALL_STEP, 960000) / SMALL_STEP * SMALL_STEP
    ensures PrechargeOf(U8(SmallCurrentCode(uA, 780000)) << 4)
         == Clamp(uA, SMALL_STEP, 780000) / SMALL_STEP * SMALL_STEP
  {
    hide U8;
    FourBits(SmallCurrentCode(uA, 960000));
    FourBits(SmallCurrentCode(uA, 780000));
  }

  const BOOST_VOLTS: seq<nat> := [4850000, 5000000, 5150000, 5300000]

  // ----- Requests -----

  /** What the setters depend on beside the request: the battery's limits, and
      whether `char` is signed. */
  datatype Limits = Limits(ichg: nat, vreg: u32, charIsSigned: bool)

  /** A request made through the setter of a field; for a switch, non-zero is on. */
  datatype Request = Request(field: Field, amount: int)

  /** The bits a setter writes for a request, if it writes any. */
  function Encode(r: Request, l: Limits): Option<bv8> {
    var x := r.amount;
    match r.field
    case InputCurrent => if IINDPM_MIN <= x <= IINDPM_MAX then Some(U8(InputCurrentCode(x))) else None
    case ChargeCurrent => Some(U8(Clamp(x, 0, l.ichg) / ICHRG_STEP))
    case ChargeVoltage => Some(ChargeVoltageBits(x, l.vreg))
    case Termination => Some(U8(SmallCurrentCode(x, 960000)))
    case Precharge => Some(U8(SmallCurrentCode(x, 780000)) << 4)
    case BoostCurrent => if x == 1200000 then Some(0) else if x == 2000000 then Some(0x80) else None
    case BoostVoltage =>
      if x == 4850000 then Some(0)
      else if x == 5000000 then Some(0x10)
      else if x == 5150000 then Some(0x20)
      else if x == 5300000 || !l.charIsSigned then Some(0x30)
      else None
    case Watchdog => Some(if x == 0 then 0 else if x == 40 then 0x10 else if x == 80 then 0x20 else 0x30)
    case _ => Some(if x != 0 then r.field.Mask() else 0)
  }

  /** The registers after a request. */
  function Ask(regs: Regs, r: Request, l: Limits): Regs {
    match Encode(r, l)
    case None => regs
    case Some(val) => Store(regs, r.field, val)
  }

  /** What the bits of a field stand for, as its getter or the driver's constants say. */
  function Decode(f: Field, bits: bv8): Option<nat> {
    match f
    case InputCurrent => Some(InputCurrentOf(bits))
    case ChargeCurrent => Some(ChargeCurrentOf(bits))
    case ChargeVoltage => ChargeVoltageOf(bits)
    case Termination => Some(TerminationOf(bits))
    case Precharge => Some(PrechargeOf(bits))
    case BoostCurrent => Some(if bits & 0x80 != 0 then 2000000 else 1200000)
    case BoostVoltage =>
      var k := bits & 0x30;
      Some(BOOST_VOLTS[if k == 0 then 0 else if k == 0x10 then 1 else if k == 0x20 then 2 else 3])
    case Watchdog =>
      var k := bits & 0x30;
      Some(if k == 0 then 0 else if k == 0x10 then 40 else if k == 0x20 then 80 else 160)
    case _ => Some(if bits & f.Mask() != 0 then 1 else 0)
  }

  lemma DecodeMasks(f: Field, b: bv8)
    ensures Decode(f, Part(b, f.Mask())) == Decode(f, b)
  {
    assert (b & 0x1F) & 0x1F == b & 0x1F && (b & 0x3F) & 0x3F == b & 0x3F && (b & 0xF8) & 0xF8 == b & 0xF8;
    assert (b & 0x0F) & 0x0F == b & 0x0F && (b & 0xF0) & 0xF0 == b & 0xF0 && (b & 0x30) & 0x30 == b & 0x30;
    assert (b & 0x80) & 0x80 == b & 0x80 && (b & 0x10) & 0x10 == b & 0x10;
    assert (b & 0x20) & 0x20 == b & 0x20 && (b & 0x08) & 0x08 == b & 0x08;
  }

  /** `back` is how a request rounds. */
  ghost predicate Rounds(r: Request, back: Option<nat>, l: Limits) {
    var x := r.amount;
    match r.field
    case InputCurrent =>
      // The greatest representable current not above the request.
      && back.Some? && back.value <= x
      && (forall b: bv8 :: InputCurrentOf(b) <= x ==> InputCurrentOf(b) <= back.value)
    case ChargeCurrent =>
      // Steps of 60 mA, in a field of six bits.
      back == Some(Clamp(x, 0, l.ichg) / ICHRG_STEP % 64 * ICHRG_STEP)
    case ChargeVoltage =>
      // Steps of 32 mV, code 15 being special, and no result above code 24.
      var code :=
        if l.vreg < VREG_MIN <= x then WrappedCode(l.vreg)
        else if x < VREG_MIN then 0
        else (Clamp(x, VREG_MIN, l.vreg) - VREG_MIN) / VREG_STEP % 32;
      back == if code == 15 then Some(4352000) else if code < 25 then Some(code * VREG_STEP + VREG_MIN) else None
    case Termination => back == Some(Clamp(x, SMALL_STEP, 960000) / SMALL_STEP * SMALL_STEP)
    case Precharge => back == Some(Clamp(x, SMALL_STEP, 780000) / SMALL_STEP * SMALL_STEP)
    case BoostCurrent => back == Some(if x == 1200000 then 1200000 else 2000000)
    case BoostVoltage => back == Some(if x in BOOST_VOLTS then x else 5300000)
    case Watchdog => back == Some(if x == 0 || x == 40 || x == 80 then x else 160)
    case _ => back == Some(if x != 0 then 1 else 0)
  }

  lemma SwitchRounds(r: Request, l: Limits)
    requires Encode(r, l).Some?
    requires r.field !in {InputCurrent, ChargeCurrent, ChargeVoltage, Termination, Precharge}
    ensures Rounds(r, Decode(r.field, Encode(r, l).value), l)
  {
    hide U8;
  }

  lemma CurrentRounds(r: Request, l: Limits)
    requires Encode(r, l).Some?
    requires r.field in {InputCurrent, ChargeCurrent}
    ensures Rounds(r, Decode(r.field, Encode(r, l).value), l)
  {
    hide U8, InputCurrentOf;
    if r.field == InputCurrent {
      forall b: bv8 {
        InputCurrentRoundTrip(r.amount, b);
      }
    } else {
      SixBits(Clamp(r.amount, 0, l.ichg) / ICHRG_STEP);
    }
  }

  /** Every request that is written reads back as it rounds. */
  lemma RequestRounds(r: Request, l: Limits)
    requires Encode(r, l).Some?
    ensures Rounds(r, Decode(r.field, Encode(r, l).value), l)
  {
    hide U8, ChargeVoltageOf, ChargeVoltageBits, TerminationOf, PrechargeOf;
    match r.field
    case ChargeVoltage => ChargeVoltageDecodes(r.amount, l.vreg);
    case Termination => SmallCurrentRoundTrip(r.amount);
    case Precharge => SmallCurrentRoundTrip(r.amount);
    case InputCurrent => CurrentRounds(r, l);
    case ChargeCurrent => CurrentRounds(r, l);
    case _ => SwitchRounds(r, l);
  }

  /** A masked write keeps the other bits of its register, and all other registers. */
  lemma StoredBits(regs: Regs, f: Field, val: bv8)
    ensures var now := Store(regs, f, val);
            && Part(now[f.Reg()], f.Mask()) == Part(val, f.Mask())
            && Part(now[f.Reg()], !f.Mask()) == Part(regs[f.Reg()], !f.Mask())
            && forall k :: 0 <= k < 16 && k != f.Reg() ==> now[k] == regs[k]
  {
    hide Field.Reg, Field.Mask, Merge, Part;
    RegisterBits(regs, f.Reg(), f.Mask(), val);
  }

  lemma RegisterBits(regs: Regs, r: nat, m: bv8, val: bv8)
    requires r < 16
    ensures var now := regs[r := Merge(regs[r], m, val)];
            && Part(now[r], m) == Part(val, m) && Part(now[r], !m) == Part(regs[r], !m)
            && forall k :: 0 <= k < 16 && k != r ==> now[k] == regs[k]
  {
    hide Merge, Part;
    MergedBits(regs[r], m, val);
  }

  lemma MergedBits(b: bv8, mask: bv8, val: bv8)
    ensures Part(Merge(b, mask, val), mask) == Part(val, mask)
    ensures Part(Merge(b, mask, val), !mask) == Part(b, !mask)
  {
  }

  /** Register by register, the bits that a request for a switch leaves. */
  lemma SwitchBits(regs: Regs, r: Request, l: Limits)
    requires Encode(r, l).Some?
    ensures var now, on := Ask(regs, r, l), r.amount != 0;
            match r.field
            case Hiz => now[0] & 0x80 == if on then 0x80 else 0
            case ChargeEnable => now[1] & 0x10 == if on then 0x10 else 0
            case Otg => now[1] & 0x20 == if on then 0x20 else 0
            case SafetyTimer => now[5] & 0x08 == if on then 0x08 else 0
            case _ => true
  {
    hide U8, Merge;
    StoredBits(regs, r.field, Encode(r, l).value);
  }

  /** The bits that a request for an entry of a table leaves. */
  lemma TableBits(regs: Regs, r: Request, l: Limits)
    requires Encode(r, l).Some?
    ensures var now, x := Ask(regs, r, l), r.amount;
            match r.field
            case BoostCurrent => now[2] & 0x80 == if x == 2000000 then 0x80 else 0
            case Watchdog =>
              now[5] & 0x30 == if x == 0 then 0 else if x == 40 then 0x10 else if x == 80 then 0x20 else 0x30
            case BoostVoltage =>
              now[6] & 0x30 ==
                if x == 4850000 then 0 else if x == 5000000 then 0x10 else if x == 5150000 then 0x20 else 0x30
            case _ => true
  {
    hide U8, Merge;
    StoredBits(regs, r.field, Encode(r, l).value);
  }

  /** The bits that a request for a current or a voltage leaves. */
  lemma LevelBits(regs: Regs, r: Request, l: Limits)
    requires Encode(r, l).Some?
    ensures var now, x := Ask(regs, r, l), r.amount;
            match r.field
            case InputCurrent =>
              (now[0] & 0x1F) as nat == if x <= 3100000 then x / 100000 - 1 else if x < 3800000 then 30 else 31
            case ChargeCurrent => (now[2] & 0x3F) as nat == Clamp(x, 0, l.ichg) / 60000 % 64
            case Termination => (now[3] & 0x0F) as nat == Clamp(x, 60000, 960000) / 60000 - 1
            case Precharge => ((now[3] & 0xF0) >> 4) as nat == Clamp(x, 60000, 780000) / 60000 - 1
            case ChargeVoltage =>
              ((now[4] & 0xF8) >> 3) as nat == (Clamp(x, 3856000, l.vreg) - 3856000) % 0x1_0000_0000 / 32000 % 32
            case _ => true
  {
    hide U8, Merge, Clamp;
    var x := r.amount;
    StoredBits(regs, r.field, Encode(r, l).value);
    match r.field
    case InputCurrent => FiveBits(InputCurrentCode(x));
    case ChargeCurrent => SixBits(Clamp(x, 0, l.ichg) / ICHRG_STEP);
    case Termination => FourBits(SmallCurrentCode(x, 960000));
    case Precharge => FourBits(SmallCurrentCode(x, 780000));
    case ChargeVoltage => FiveHighBits(ChargeVoltageCode(x, l.vreg));
    case _ =>
  }

  /** The masked writes that a run of requests makes. */
  function Writes(rs: seq<Request>, l: Limits): seq<(Field, bv8)> {
    if rs == [] then [] else
      var before, r := Writes(rs[..|rs| - 1], l), rs[|rs| - 1];
      match Encode(r, l)
      case None => before
      case Some(val) => before + [(r.field, val)]
  }

  /** The registers after a run of requests. */
  function AskAll(regs: Regs, rs: seq<Request>, l: Limits): Regs {
    if rs == [] then regs else Ask(AskAll(regs, rs[..|rs| - 1], l), rs[|rs| - 1], l)
  }

  /** The last request for a field that was not refused, or -1. */
  function LastRequest(rs: seq<Request>, f: Field, l: Limits): (k: int)
    ensures -1 <= k < |rs|
    ensures k >= 0 ==> rs[k].field == f && Encode(rs[k], l).Some?
    ensures forall j :: k < j < |rs| ==> rs[j].field != f || Encode(rs[j], l).None?
  {
    if rs == [] then -1
    else if rs[|rs| - 1].field == f && Encode(rs[|rs| - 1], l).Some? then |rs| - 1
    else LastRequest(rs[..|rs| - 1], f, l)
  }

  /** A run of requests is a run of masked writes; of those to one field the last
      comes from the last request for it. */
  lemma {:induction false} RequestsAreWrites(regs: Regs, rs: seq<Request>, f: Field, l: Limits)
    ensures AskAll(regs, rs, l) == StoreAll(regs, Writes(rs, l))
    ensures var k, j := LastStore(Writes(rs, l), f), LastRequest(rs, f, l);
            (k < 0 <==> j < 0) && (k >= 0 ==> Writes(rs, l)[k].1 == Encode(rs[j], l).value)
  {
    hide Encode, Store;
    if rs != [] {
      var before := Writes(rs[..|rs| - 1], l);
      RequestsAreWrites(regs, rs[..|rs| - 1], f, l);
      assert Writes(rs, l) != before ==> Writes(rs, l)[..|before|] == before;
    }
  }

  /** After any run of requests every setting reads back as the last request made
      to it rounds; a setting without one reads back as at first. */
  lemma SettingsReadBack(regs: Regs, rs: seq<Request>, f: Field, l: Limits)
    ensures var k, back := LastRequest(rs, f, l), Decode(f, Load(AskAll(regs, rs, l), f));
            if k < 0 then back == Decode(f, Load(regs, f)) else Rounds(rs[k], back, l)
  {
    hide Part, Encode, Decode, Rounds, Load;
    RequestsAreWrites(regs, rs, f, l);
    FieldsIndependent(regs, Writes(rs, l), f);
    var k := LastRequest(rs, f, l);
    if k >= 0 {
      DecodeMasks(f, Encode(rs[k], l).value);
      RequestRounds(rs[k], l);
    }
  }

  // ----- The charger -----

  class Sgm {
    const outcome: nat -> int
    const limits: Limits
    var calls: nat
    var regs: Regs

    /** The next `n` bus transfers succeed. */
    predicate Works(n: nat)
      reads this`calls
    {
      forall k :: calls <= k < calls + n ==> outcome(k) >= 0
    }

    /** One bus transfer: zero, or a negative error. */
    method Transfer() returns (ret: int)
      modifies this`calls
      ensures calls == old(calls) + 1
      ensures ret == if outcome(old(calls)) < 0 then outcome(old(calls)) else 0
    {
      ret := if outcome(calls) < 0 then outcome(calls) else 0;
      calls := calls + 1;
    }

    /** The locked read-modify-write that every setter uses. */
    method UpdateBits(reg: nat, mask: bv8, val: bv8) returns (ret: int)
      requires reg < 16
      modifies this`calls, this`regs
      ensures ret <= 0 && (ret == 0 <==> old(Works(2)))
      ensures regs == if ret == 0 then old(regs)[reg := Merge(old(regs)[reg], mask, val)] else old(regs)
      ensures ret == 0 <==> outcome(old(calls)) >= 0 && outcome(old(calls) + 1) >= 0
    {
      ret := Transfer();
      if ret != 0 {
        return;
      }
      var tmp := regs[reg];
      tmp := tmp & !mask;
      tmp := tmp | (val & mask);
      ret := Transfer();
      if ret == 0 {
        regs := regs[reg := tmp];
      }
    }

    method ReadReg(reg: nat) returns (ret: int, data: bv8)
      requires reg < 16
      modifies this`calls
      ensures ret == 0 <==> old(Works(1))
      ensures ret == 0 <==> outcome(old(calls)) >= 0
      ensures ret == 0 ==> data == regs[reg]
    {
      data := 0;
      ret := Transfer();
      if ret == 0 {
        data := regs[reg];
      }
    }

    method SetInputCurrLim(iindpm: nat) returns (ret: int)
      modifies this`calls, this`regs
      ensures iindpm < IINDPM_MIN || iindpm > IINDPM_MAX ==> ret == EINVAL
      ensures IINDPM_MIN <= iindpm <= IINDPM_MAX ==> (ret == 0 <==> old(Works(2)))
      ensures regs == if ret == 0 then Ask(old(regs), Request(InputCurrent, iindpm), limits) else old(regs)
    {
      if iindpm < IINDPM_MIN || iindpm > IINDPM_MAX {
        return EINVAL;
      }
      var regVal;
      if iindpm >= IINDPM_MIN && iindpm <= 3100000 {
        regVal := U8((iindpm - IINDPM_MIN) / IINDPM_STEP);
      } else if iindpm > 3100000 && iindpm < IINDPM_MAX {
        regVal := 0x1E;
      } else {
        regVal := 0x1F;
      }
      ret := UpdateBits(0x00, 0x1F, regVal);
    }

    method GetInputCurrLim() returns (ret: int, ilim: nat)
      modifies this`calls
      ensures ret == 0 <==> old(Works(1))
      ensures ret == 0 ==> Some(ilim) == Decode(InputCurrent, Load(regs, InputCurrent))
      ensures ret == 0 ==>
        ilim == if regs[0x00] & 0x1F == 0x1F then 3800000 else ((regs[0x00] & 0x1F) as nat + 1) * 100000
    {
      var regVal;
      ilim := 0;
      ret, regVal := ReadReg(0x00);
      if ret != 0 {
        return;
      }
      if regVal & 0x1F == 0x1F {
        ilim := IINDPM_MAX;
      } else {
        ilim := (regVal & 0x1F) as nat * IINDPM_STEP + IINDPM_MIN;
      }
      MaskTwice(regVal, 0x1F);
    }

    lemma MaskTwice(b: bv8, m: bv8)
      ensures (b & m) & m == b & m
    {
    }

    method SetHizEn(on: bool) returns (ret: int)
      modifies this`calls, this`regs
      ensures ret == 0 <==> old(Works(2))
      ensures regs == if ret == 0 then Ask(old(regs), Request(Hiz, if on then 1 else 0), limits) else old(regs)
    {
      ret := UpdateBits(0x00, 0x80, if on then 0x80 else 0);
    }

    method ChargingSwitch(on: bool) returns (ret: int)
      modifies this`calls, this`regs
      ensures ret == 0 <==> old(Works(2))
      ensures regs == if ret == 0 then Ask(old(regs), Request(ChargeEnable, if on then 1 else 0), limits) else old(regs)
    {
      if on {
        ret := UpdateBits(0x01, 0x10, 0x10);
      } else {
        ret := UpdateBits(0x01, 0x10, 0);
      }
    }

    method EnableOtg(on: bool) returns (ret: int)
      modifies this`calls, this`regs
      ensures ret == 0 <==> old(Works(2))
      ensures regs == if ret == 0 then Ask(old(regs), Request(Otg, if on then 1 else 0), limits) else old(regs)
    {
      if on {
        ret := UpdateBits(0x01, 0x20, 0x20);
      } else {
        ret := UpdateBits(0x01, 0x20, 0);
      }
    }

    method SetIchrgCurr(uA: nat) returns (ret: int)
      modifies this`calls, this`regs
      ensures ret == 0 <==> old(Works(2))
      ensures regs == if ret == 0 then Ask(old(regs), Request(ChargeCurrent, uA), limits) else old(regs)
    {
      var amount := uA;
      if amount > limits.ichg {
        amount := limits.ichg;
      }
      ret := UpdateBits(0x02, 0x3F, U8(amount / ICHRG_STEP));
    }

    method GetIchgCurr() returns (ret: int, uA: nat)
      modifies this`calls
      ensures ret == 0 <==> old(Works(1))
      ensures ret == 0 ==> Some(uA) == Decode(ChargeCurrent, Load(regs, ChargeCurrent))
      ensures ret == 0 ==> uA == (regs[0x02] & 0x3F) as nat * 60000
    {
      var ichg;
      uA := 0;
      ret, ichg := ReadReg(0x02);
      if ret != 0 {
        return;
      }
      uA := (ichg & 0x3F) as nat * ICHRG_STEP;
      MaskTwice(ichg, 0x3F);
    }

    /** Only the two limits of the table are written; others succeed without effect. */
    method SetBoostCurrentLimit(uA: nat) returns (ret: int)
      modifies this`calls, this`regs
      ensures ret == 0 <==> (uA == 1200000 || uA == 2000000 ==> old(Works(2)))
      ensures regs == if ret == 0 then Ask(old(regs), Request(BoostCurrent, uA), limits) else old(regs)
    {
      ret := 0;
      if uA == 1200000 {
        ret := UpdateBits(0x02, 0x80, 0);
      } else if uA == 2000000 {
        ret := UpdateBits(0x02, 0x80, 0x80);
      }
    }

    method SetTermCurr(uA: nat) returns (ret: int)
      modifies this`calls, this`regs
      ensures ret == 0 <==> old(Works(2))
      ensures regs == if ret == 0 then Ask(old(regs), Request(Termination, uA), limits) else old(regs)
    {
      var amount := uA;
      if amount < SMALL_STEP {
        amount := SMALL_STEP;
      } else if amount > 960000 {
        amount := 960000;
      }
      ret := UpdateBits(0x03, 0x0F, U8((amount - SMALL_STEP) / SMALL_STEP));
    }

    method SetPrechrgCurr(uA: int) returns (ret: int)
      modifies this`calls, this`regs
      ensures ret == 0 <==> old(Works(2))
      ensures regs == if ret == 0 then Ask(old(regs), Request(Precharge, uA), limits) else old(regs)
    {
      var amount := uA;
      if amount < SMALL_STEP {
        amount := SMALL_STEP;
      } else if amount > 780000 {
        amount := 780000;
      }
      var regVal := U8((amount - SMALL_STEP) / SMALL_STEP);
      regVal := regVal << 4;
      ret := UpdateBits(0x03, 0xF0, regVal);
    }

    method SetChrgVolt(uV: nat) returns (ret: int)
      modifies this`calls, this`regs
      ensures ret == 0 <==> old(Works(2))
      ensures regs == if ret == 0 then Ask(old(regs), Request(ChargeVoltage, uV), limits) else old(regs)
    {
      var volt := uV;
      if volt < VREG_MIN {
        volt := VREG_MIN;
      } else if volt > limits.vreg {
        volt := limits.vreg;
      }
      var regVal := U8((volt - VREG_MIN) % U32 / VREG_STEP);
      regVal := regVal << 3;
      ret := UpdateBits(0x04, 0xF8, regVal);
    }

    /** `volt` keeps its value when the code is out of the table. */
    method GetChrgVolt(was: nat) returns (ret: int, volt: nat)
      modifies this`calls
      ensures ret == 0 <==> old(Works(1))
      ensures ret == 0 ==>
        volt == match Decode(ChargeVoltage, Load(regs, ChargeVoltage)) case Some(v) => v case None => was
      ensures ret == 0 ==>
        (var code := (regs[0x04] & 0xF8) >> 3;
         volt == if code == 15 then 4352000 else if code < 25 then code as nat * 32000 + 3856000 else was)
    {
      var vreg;
      volt := was;
      ret, vreg := ReadReg(0x04);
      if ret != 0 {
        return;
      }
      MaskTwice(vreg, 0xF8);
      vreg := (vreg & 0xF8) >> 3;
      if 15 == vreg {
        volt := 4352000;
      } else if vreg < 25 {
        volt := vreg as nat * VREG_STEP + VREG_MIN;
      }
    }

    method SetWatchdogTimer(time: int) returns (ret: int)
      modifies this`calls, this`regs
      ensures ret == 0 <==> old(Works(2))
      ensures regs == if ret == 0 then Ask(old(regs), Request(Watchdog, time), limits) else old(regs)
    {
      var regVal;
      if time == 0 {
        regVal := 0;
      } else if time == 40 {
        regVal := 0x10;
      } else if time == 80 {
        regVal := 0x20;
      } else {
        regVal := 0x30;
      }
      ret := UpdateBits(0x05, 0x30, regVal);
    }

    method EnableSafetyTimer(on: bool) returns (ret: int)
      modifies this`calls, this`regs
      ensures ret == 0 <==> old(Works(2))
      ensures regs == if ret == 0 then Ask(old(regs), Request(SafetyTimer, if on then 1 else 0), limits) else old(regs)
    {
      if on {
        ret := UpdateBits(0x05, 0x08, 0x08);
      } else {
        ret := UpdateBits(0x05, 0x08, 0);
      }
    }

    /** Sets a boost voltage of the table.  A voltage outside it is refused where
        `char` is signed; where it is unsigned the largest entry is set instead. */
    method SetBoostVoltageLimit(uV: nat) returns (ret: int)
      modifies this`calls, this`regs
      ensures uV !in BOOST_VOLTS && limits.charIsSigned ==> ret == -1
      ensures uV in BOOST_VOLTS || !limits.charIsSigned ==> (ret == 0 <==> old(Works(2)))
      ensures regs == if ret == 0 then Ask(old(regs), Request(BoostVoltage, uV), limits) else old(regs)
    {
      hide U8, Merge;
      var regVal: bv8, i := 0xFF, 0;
      while i < 4
        invariant 0 <= i <= 4 && regVal == 0xFF
        invariant forall j :: 0 <= j < i ==> BOOST_VOLTS[j] != uV
      {
        if uV == BOOST_VOLTS[i] {
          regVal := U8(i);
          break;
        }
        i := i + 1;
      }
      SmallByte(i);
      if limits.charIsSigned && regVal >= 0x80 {
        return -1;
      }
      regVal := regVal << 4;
      UpperBits(regs[0x06]);
      assert i == 4 ==> uV != BOOST_VOLTS[0] && uV != BOOST_VOLTS[1] && uV != BOOST_VOLTS[2] && uV != BOOST_VOLTS[3];
      ret := UpdateBits(0x06, 0x30, regVal);
    }

    lemma SmallByte(i: nat)
      requires i <= 4
      ensures U8(i) < 0x80
      ensures i < 4 ==> U8(i) << 4 == if i == 0 then 0 else if i == 1 then 0x10 else if i == 2 then 0x20 else 0x30
    {
    }

    lemma UpperBits(b: bv8)
      ensures Merge(b, 0x30, 0xFF << 4) == Merge(b, 0x30, 0x30)
    {
    }
  }
}
