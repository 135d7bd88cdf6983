/** Partition sizing through the extended CSD of an eMMC card, byte by byte, and
    the decoder that reads the sizes back (mmc_core.c; JESD84-B51, section 7.4). */
module ExtCsd {
  import opened FlatImage
  import opened Arithmetic
  import opened MmcErrors
  import opened LittleEndian

  // Byte positions in the extended CSD.
  const ENH_START_ADDR: nat := 136
  const ENH_SIZE_MULT: nat := 140
  const GP1_SIZE_MULT: nat := 143
  const ERASE_GRP_DEF: nat := 175
  const HC_WP_GRP_SIZE: nat := 221
  const HC_ERASE_GRP_SIZE: nat := 224

  type Raw = r: seq<byte> | |r| == 512 witness Zeros(512)

  // ----- Decoding -----

  /** Write-protect group size in units of 512 KB. */
  function GroupUnits(raw: Raw): nat {
    var wp: nat, erase: nat := raw[HC_WP_GRP_SIZE], raw[HC_ERASE_GRP_SIZE];
    wp * erase
  }

  /** A size multiplier decoded to kilobytes, in 32-bit arithmetic. */
  function SizeKb(raw: Raw, at: nat): nat
    requires at + 3 <= 512
  {
    var mult := Join3(raw[at], raw[at + 1], raw[at + 2]);
    var wp: nat, erase: nat := raw[HC_WP_GRP_SIZE], raw[HC_ERASE_GRP_SIZE];
    mult * wp * erase * 512 % U32
  }

  function StartAddress(raw: Raw): nat {
    Join4(raw[ENH_START_ADDR], raw[ENH_START_ADDR + 1], raw[ENH_START_ADDR + 2], raw[ENH_START_ADDR + 3])
  }

  /** The position of the size multiplier of general-purpose partition `id`. */
  function GpAt(id: nat): nat
    requires 1 <= id <= 4
  {
    GP1_SIZE_MULT + 3 * (id - 1)
  }

  /** The multiplier that a size request in bytes comes to. */
  function Multiplier(size: nat, units: nat): nat
    requires units > 0
  {
    size / (512 * 1024) / units
  }

  /** The decoded size in kilobytes is the three-byte number, lowest byte first, in
      groups of the wp group size times the erase group size times 512 KB. */
  lemma SizeDecodes(raw: Raw, at: nat)
    requires at + 3 <= 512
    ensures var a: nat, b: nat, c: nat, wp: nat, erase: nat := raw[at], raw[at + 1], raw[at + 2], raw[221], raw[224];
            SizeKb(raw, at) == (a + b * 256 + c * 65536) * wp * erase * 512 % 0x1_0000_0000
  {
    hide Join3;
    JoinsAdd(raw[at], raw[at + 1], raw[at + 2], 0);
  }

  lemma StartDecodes(raw: Raw)
    ensures var a: nat, b: nat, c: nat, d: nat := raw[136], raw[137], raw[138], raw[139];
            StartAddress(raw) == a + b * 0x100 + c * 0x1_0000 + d * 0x100_0000
  {
    hide Join4;
    JoinsAdd(raw[136], raw[137], raw[138], raw[139]);
  }

  /** The largest number of whole groups in a request. */
  lemma MultiplierFits(size: nat, units: nat)
    requires units > 0
    ensures Multiplier(size, units) * units <= size / (512 * 1024) < (Multiplier(size, units) + 1) * units
  {
    DivModOf(size / (512 * 1024), units);
    assert (Multiplier(size, units) + 1) * units == Multiplier(size, units) * units + units;
  }

  /** Writing the bytes of the multiplier makes the decoder show the largest whole
      number of write-protect groups that the requested size holds. */
  lemma SizeRoundTrip(raw: Raw, at: nat, size: nat)
    requires at + 3 <= HC_WP_GRP_SIZE && size < U32 && GroupUnits(raw) > 0
    ensures var now: Raw := Splice(raw, at, Digits(Multiplier(size, GroupUnits(raw)), 3));
            var group := GroupUnits(raw) * 512 * 1024;
            var bytes := SizeKb(now, at) * 1024;
            bytes % group == 0 && bytes <= size < bytes + group
  {
    hide Digits, Multiplier, SizeKb, GroupUnits;
    var units := GroupUnits(raw);
    var m := Multiplier(size, units);
    MultiplierBounds(size, units);
    DecodesAs(raw, at, m);
    WholeGroups(m, units);
  }

  lemma DecodesAs(raw: Raw, at: nat, m: nat)
    requires at + 3 <= HC_WP_GRP_SIZE && m < 0x100_0000
    ensures SizeKb(Splice(raw, at, Digits(m, 3)), at) == m * GroupUnits(raw) * 512 % U32
  {
    hide Digits, Join3;
    var now: Raw := Splice(raw, at, Digits(m, 3));
    var d := Digits(m, 3);
    assert now[at] == d[0] && now[at + 1] == d[1] && now[at + 2] == d[2];
    JoinDigits(m);
    var wp: nat, erase: nat := raw[HC_WP_GRP_SIZE], raw[HC_ERASE_GRP_SIZE];
    assert m * wp * erase == m * (wp * erase);
  }

  lemma WholeGroups(m: nat, units: nat)
    requires units > 0 && m * units < 0x2000
    ensures var bytes := (m * units * 512 % U32) * 1024;
            bytes == m * units * 512 * 1024 && bytes % (units * 512 * 1024) == 0
  {
    assert m * units * 512 * 1024 == m * (units * 512 * 1024);
    ModIgnores(0, m, units * 512 * 1024);
  }

  lemma MultiplierBounds(size: nat, units: nat)
    requires units > 0 && size < U32
    ensures var m := Multiplier(size, units);
            m * units * 512 * 1024 <= size < (m + 1) * units * 512 * 1024 && m < 0x2000 && m * units < 0x2000
  {
    var halfMegs := size / (512 * 1024);
    var m := halfMegs / units;
    DivModOf(halfMegs, units);
    assert halfMegs == m * units + halfMegs % units;
    assert (m + 1) * units == m * units + units;
    if m > 0 {
      AtLeastOnce(units, m);
    }
  }

  lemma SpliceByte(was: seq<byte>, at: nat, done: seq<byte>, b: byte)
    requires at + |done| + 1 <= |was|
    ensures Splice(was, at, done)[at + |done| := b] == Splice(was, at, done + [b])
    ensures Splice(was, at, []) == was
  {
  }

  // ----- The card -----

  class Card {
    const isMmc: bool
    const highcaps: bool
    const version4: bool
    const outcome: nat -> int
    const accepts: nat -> bool
    var calls: nat
    var device: Raw
    var raw: Raw
    var gpSzKb: seq<nat>
    var enhSz: nat
    var enhStartAddr: nat

    /** The host's copy is current and decoded. */
    ghost predicate Synced()
      reads this
    {
      raw == device && Decoded()
    }

    ghost predicate Decoded()
      reads this
    {
      && gpSzKb == [SizeKb(raw, GpAt(1)), SizeKb(raw, GpAt(2)), SizeKb(raw, GpAt(3)), SizeKb(raw, GpAt(4))]
      && enhSz == SizeKb(raw, ENH_SIZE_MULT) && enhStartAddr == StartAddress(raw)
    }

    /** Every command since call number `from` has succeeded, and every byte was taken. */
    ghost predicate AllOk(from: nat)
      reads this`calls
    {
      forall k :: from <= k < calls ==> outcome(k) == MMC_ERR_NONE && accepts(k)
    }

    method DecodeExtCsd()
      modifies this`gpSzKb, this`enhSz, this`enhStartAddr
      ensures Decoded()
    {
      enhStartAddr := StartAddress(raw);
      enhSz := SizeKb(raw, ENH_SIZE_MULT);
      gpSzKb := [SizeKb(raw, GpAt(1)), SizeKb(raw, GpAt(2)), SizeKb(raw, GpAt(3)), SizeKb(raw, GpAt(4))];
    }

    /** Reads and decodes the extended CSD; version 3 cards have none. */
    method ReadExtCsd() returns (err: int)
      modifies this`calls, this`raw, this`gpSzKb, this`enhSz, this`enhStartAddr
      ensures version4 && err == MMC_ERR_NONE ==> Synced()
      ensures !version4 ==> err == MMC_ERR_NONE && calls == old(calls)
      ensures version4 ==> err == outcome(old(calls)) && calls == old(calls) + 1
      ensures !version4 || err != MMC_ERR_NONE ==>
        raw == old(raw) && gpSzKb == old(gpSzKb) && enhSz == old(enhSz) && enhStartAddr == old(enhStartAddr)
    {
      if !version4 {
        return MMC_ERR_NONE;
      }
      err := outcome(calls);
      calls := calls + 1;
      if err == MMC_ERR_NONE {
        raw := device;
        DecodeExtCsd();
      }
    }

    /** Writes one byte and checks that the card took it. */
    method SetExtCsd(addr: nat, value: byte) returns (err: int)
      requires addr < 512
      modifies this`calls, this`device, this`raw, this`gpSzKb, this`enhSz, this`enhStartAddr
      ensures old(calls) <= calls
      ensures 192 <= addr || !isMmc ==> err == MMC_ERR_INVALID
      ensures addr < 192 && isMmc && AllOk(old(calls)) ==>
        err == if version4 || raw[addr] == value then MMC_ERR_NONE else MMC_ERR_FAILED
      ensures device == old(device) || device == old(device)[addr := value]
      ensures err == MMC_ERR_NONE && version4 ==> addr < 192 && Synced() && device == old(device)[addr := value]
      ensures err == MMC_ERR_NONE && version4 ==> raw == device && raw[addr] == value
      ensures addr < 192 && isMmc && version4 && (forall k :: outcome(k) == MMC_ERR_NONE && accepts(k)) ==>
        err == MMC_ERR_NONE
    {
      if 192 <= addr || !isMmc {
        return MMC_ERR_INVALID;
      }
      err := outcome(calls);
      if err == MMC_ERR_NONE && accepts(calls) {
        device := device[addr := value];
      }
      calls := calls + 1;
      if err == MMC_ERR_NONE {
        err := ReadExtCsd();
        if err == MMC_ERR_NONE {
          if raw[addr] != value {
            err := MMC_ERR_FAILED;
          }
        }
      }
    }

    /** Writes the low `n` bytes of a number, the lowest first, up to the first failure. */
    method WriteDigits(at: nat, value: nat, n: nat) returns (err: int)
      requires at + n <= 512 && n > 0
      modifies this`calls, this`device, this`raw, this`gpSzKb, this`enhSz, this`enhStartAddr
      ensures old(calls) <= calls
      ensures isMmc && version4 && at + n <= 192 && AllOk(old(calls)) ==> err == MMC_ERR_NONE
      ensures forall k :: 0 <= k < 512 && !(at <= k < at + n) ==> device[k] == old(device)[k]
      ensures err == MMC_ERR_NONE && version4 ==> Synced() && device == Splice(old(device), at, Digits(value, n))
    {
      hide Splice, Digits, SizeKb, StartAddress;
      var rest := value;
      err := MMC_ERR_FAILED;
      ghost var done: seq<byte> := [];
      SpliceByte(device, at, [], 0);
      for i := 0 to n
        invariant |done| == i && done + Digits(rest, n - i) == Digits(value, n)
        invariant i > 0 ==> err == MMC_ERR_NONE
        invariant old(calls) <= calls
        invariant version4 && i > 0 ==> Synced()
        invariant version4 ==> device == Splice(old(device), at, done)
        invariant forall k :: 0 <= k < 512 && !(at <= k < at + n) ==> device[k] == old(device)[k]
      {
        var arg := rest % 256;
        DigitsStep(done, rest, n - i);
        SpliceByte(old(device), at, done, arg);
        rest := rest / 256;
        err := SetExtCsd(at + i, arg);
        if err != MMC_ERR_NONE {
          return;
        }
        done := done + [arg];
      }
    }

    /** Sizes general-purpose partition `id`. */
    method SetGpSize(id: nat, size: nat) returns (err: int)
      requires 1 <= id <= 4 && size < U32
      requires isMmc && highcaps && version4 ==> GroupUnits(raw) > 0
      modifies this`calls, this`device, this`raw, this`gpSzKb, this`enhSz, this`enhStartAddr
      ensures !isMmc || !highcaps || !version4 ==> err == MMC_ERR_FAILED && device == old(device)
      ensures isMmc && highcaps && version4 ==>
        (forall k :: old(calls) <= k < calls ==> outcome(k) == MMC_ERR_NONE && accepts(k)) ==> err == MMC_ERR_NONE
      ensures forall k :: 0 <= k < 512 && !(140 + 3 * id <= k < 143 + 3 * id) ==> device[k] == old(device)[k]
      ensures old(Synced()) && err == MMC_ERR_NONE ==>
        && Synced()
        && (var wp: nat, erase: nat := old(device)[221], old(device)[224];
            var group := wp * erase * 512 * 1024;
            var bytes := gpSzKb[id - 1] * 1024;
            bytes % group == 0 && bytes <= size < bytes + group)
        && (forall j :: 0 <= j < 4 && j != id - 1 ==> gpSzKb[j] == old(gpSzKb)[j])
        && enhSz == old(enhSz) && enhStartAddr == old(enhStartAddr)
    {
      hide Digits, SizeKb, StartAddress;
      err := MMC_ERR_FAILED;
      if !isMmc || !highcaps {
        return;
      }
      if !version4 {
        return;
      }
      var multiplier := Multiplier(size, GroupUnits(raw));
      SizeRoundTrip(raw, GpAt(id), size);
      OthersKept(raw, GpAt(id), Digits(multiplier, 3));
      err := WriteDigits(GpAt(id), multiplier, 3);
    }

    /** A write to one size multiplier leaves what the other bytes decode to. */
    lemma OthersKept(was: Raw, at: nat, bytes: seq<byte>)
      requires at + |bytes| <= HC_WP_GRP_SIZE
      ensures var now: Raw := Splice(was, at, bytes);
              && (forall k: nat {:trigger SizeKb(now, k)} ::
                    k + 3 <= at || at + |bytes| <= k <= 509 ==> SizeKb(now, k) == SizeKb(was, k))
              && (at >= ENH_START_ADDR + 4 ==> StartAddress(now) == StartAddress(was))
              && GroupUnits(now) == GroupUnits(was)
    {
      hide Join3, Join4;
    }

    /** Sizes the enhanced user area; the erase-group definition must be on. */
    method SetEnhSize(size: nat) returns (err: int)
      requires size < U32
      requires isMmc && highcaps && version4 && raw[ERASE_GRP_DEF] % 2 == 1 ==> GroupUnits(raw) > 0
      modifies this`calls, this`device, this`raw, this`gpSzKb, this`enhSz, this`enhStartAddr
      ensures !isMmc || !highcaps || !version4 || old(raw)[175] % 2 == 0 ==>
        err == MMC_ERR_FAILED && device == old(device)
      ensures isMmc && highcaps && version4 && old(raw)[175] % 2 == 1 ==>
        (forall k :: old(calls) <= k < calls ==> outcome(k) == MMC_ERR_NONE && accepts(k)) ==> err == MMC_ERR_NONE
      ensures forall k :: 0 <= k < 512 && !(140 <= k < 143) ==> device[k] == old(device)[k]
      ensures old(Synced()) && err == MMC_ERR_NONE ==>
        && Synced() && gpSzKb == old(gpSzKb) && enhStartAddr == old(enhStartAddr)
        && (var wp: nat, erase: nat := old(device)[221], old(device)[224];
            var group := wp * erase * 512 * 1024;
            var bytes := enhSz * 1024;
            bytes % group == 0 && bytes <= size < bytes + group)
    {
      hide Digits, SizeKb, StartAddress;
      err := MMC_ERR_FAILED;
      if !isMmc || !highcaps {
        return;
      }
      if !version4 {
        return;
      }
      if raw[ERASE_GRP_DEF] % 2 == 0 {
        return;
      }
      var multiplier := Multiplier(size, GroupUnits(raw));
      SizeRoundTrip(raw, ENH_SIZE_MULT, size);
      OthersKept(raw, ENH_SIZE_MULT, Digits(multiplier, 3));
      err := WriteDigits(ENH_SIZE_MULT, multiplier, 3);
    }

    /** Places the enhanced user area: in sectors on high-capacity cards, else in bytes. */
    method SetEnhStartAddr(addr: nat) returns (err: int)
      requires addr < U32
      modifies this`calls, this`device, this`raw, this`gpSzKb, this`enhSz, this`enhStartAddr
      ensures !isMmc || !version4 || old(raw)[175] % 2 == 0 ==>
        err == MMC_ERR_FAILED && device == old(device)
      ensures isMmc && version4 && old(raw)[175] % 2 == 1 ==>
        (forall k :: old(calls) <= k < calls ==> outcome(k) == MMC_ERR_NONE && accepts(k)) ==> err == MMC_ERR_NONE
      ensures forall k :: 0 <= k < 512 && !(136 <= k < 140) ==> device[k] == old(device)[k]
      ensures old(Synced()) && err == MMC_ERR_NONE ==>
        && Synced() && gpSzKb == old(gpSzKb) && enhSz == old(enhSz)
        && enhStartAddr == if highcaps then addr / 512 else addr
    {
      hide Digits, SizeKb;
      err := MMC_ERR_FAILED;
      if !isMmc {
        return;
      }
      if !version4 {
        return;
      }
      if raw[ERASE_GRP_DEF] % 2 == 0 {
        return;
      }
      var start := addr;
      if highcaps {
        start := addr / 512;
      }
      StartRoundTrip(raw, start);
      OthersKept(raw, ENH_START_ADDR, Digits(start, 4));
      err := WriteDigits(ENH_START_ADDR, start, 4);
    }
  }

  lemma StartRoundTrip(raw: Raw, start: nat)
    requires start < U32
    ensures StartAddress(Splice(raw, ENH_START_ADDR, Digits(start, 4))) == start
  {
    hide Digits, Join4;
    var d, now := Digits(start, 4), Splice(raw, ENH_START_ADDR, Digits(start, 4));
    assert forall i :: 0 <= i < 4 ==> now[ENH_START_ADDR + i] == d[i];
    JoinDigits(start);
  }
}
