/** Write protection of an eMMC card: the group scan, setting and clearing group
    protection, and locking one-time-programmable ranges (mmc_core.c). */
module WriteProtectCard {
  import opened Arithmetic
  import opened MmcErrors
  import opened Wrappers
  import opened WriteProtectScan

  // USR_WP, byte 171 of the extended CSD (JESD84-B51, section 7.4).
  const US_PWR_WP_EN: bv8 := 0x01
  const US_PERM_WP_EN: bv8 := 0x04
  const US_PWR_WP_DIS: bv8 := 0x08
  const US_PERM_WP_DIS: bv8 := 0x10

  datatype Region = User | Boot1 | Boot2 | OtherRegion

  datatype OtpStatus = Locked | Unlocked | OtherStatus

  /** Set-protection commands never weaken the protection of a group. */
  function Stronger(g: Group, level: Group): (r: Group)
    ensures r >= g && r >= level && (r == g || r == level)
  {
    if g < level then level else g
  }

  /** `groups` after a set-protection command of this level on `n` groups. */
  function Raise(groups: seq<Group>, first: nat, n: nat, level: Group): (r: seq<Group>)
    ensures |r| == |groups|
    ensures forall k :: 0 <= k < |r| ==>
      r[k] == if first <= k < first + n then Stronger(groups[k], level) else groups[k]
  {
    seq(|groups|, k requires 0 <= k < |groups| =>
      if first <= k < first + n then Stronger(groups[k], level) else groups[k])
  }

  /** `groups` after a clear-protection command, which lifts temporary protection only. */
  function Lift(groups: seq<Group>, first: nat, n: nat): (r: seq<Group>)
    ensures |r| == |groups|
    ensures forall k :: 0 <= k < |r| ==> r[k] == if first <= k < first + n && groups[k] == 1 then 0 else groups[k]
  {
    seq(|groups|, k requires 0 <= k < |groups| => if first <= k < first + n && groups[k] == 1 then 0 else groups[k])
  }

  /** The level a set-protection command gives, by the enable bits of USR_WP. */
  function Level(usrWp: bv8): Group {
    if usrWp & US_PERM_WP_EN != 0 then 3 else if usrWp & US_PWR_WP_EN != 0 then 2 else 1
  }

  lemma RaiseMore(groups: seq<Group>, first: nat, k: nat, level: Group)
    ensures Raise(Raise(groups, first, k, level), first + k, 1, level) == Raise(groups, first, k + 1, level)
    ensures Raise(groups, first, 0, level) == groups
  {
  }

  lemma LiftMore(groups: seq<Group>, first: nat, k: nat)
    ensures Lift(Lift(groups, first, k), first + k, 1) == Lift(groups, first, k + 1)
    ensures Lift(groups, first, 0) == groups
  {
  }

  /** USR_WP with both enable bits clear. */
  function Disabling(usrWp: bv8): bv8 {
    usrWp & !US_PERM_WP_EN & !US_PWR_WP_EN
  }

  /** The groups after a protection request in which every command succeeds. */
  function Requested(t: WpType, customer: bool, usrWp: bv8, groups: seq<Group>, first: nat, n: nat): seq<Group> {
    match t
    case Disabled => Lift(groups, first, n)
    case Temporary => Raise(groups, first, n, 1)
    case PowerOn => if usrWp & US_PWR_WP_DIS != 0 then groups else Raise(groups, first, n, 2)
    case Permanent =>
      if usrWp & US_PERM_WP_DIS != 0 then groups else Raise(groups, first, n, if customer then 3 else 1)
  }

  /** Group by group: a request raises the groups of its range to its level and never
      weakens them; lifting frees those that have no more than temporary protection. */
  lemma RequestedAt(t: WpType, customer: bool, usrWp: bv8, groups: seq<Group>, first: nat, n: nat, k: nat)
    requires k < |groups|
    ensures var now := Requested(t, customer, usrWp, groups, first, n);
            && |now| == |groups|
            && (!(first <= k < first + n) ==> now[k] == groups[k])
            && (first <= k < first + n ==>
                  match t
                  case Disabled => now[k] == 0 <==> groups[k] <= 1
                  case Temporary => now[k] == if groups[k] == 0 then 1 else groups[k]
                  case PowerOn =>
                    now[k] == if usrWp & 0x08 != 0 || groups[k] >= 2 then groups[k] else 2
                  case Permanent =>
                    if usrWp & 0x10 != 0 then now[k] == groups[k]
                    else if customer then now[k] == 3
                    else now[k] == if groups[k] == 0 then 1 else groups[k])
            && (first <= k < first + n && t == Disabled && groups[k] > 1 ==> now[k] == groups[k])
  {
  }

  /** Round trip: a range without protection is reported as what was requested for
      it, where the default build makes permanent protection temporary. */
  lemma RequestIsReported(t: WpType, customer: bool, usrWp: bv8, groups: seq<Group>, first: nat, n: nat)
    requires n > 0 && first + n <= |groups| && usrWp & US_PWR_WP_DIS == usrWp & US_PERM_WP_DIS == 0
    requires forall k :: first <= k < first + n ==> groups[k] == 0
    ensures Reported(Requested(t, customer, usrWp, groups, first, n), first, n)
         == Some(if t == Permanent && !customer then Temporary else t)
  {
    hide Reported, StartsWithSentinel;
    var now := Requested(t, customer, usrWp, groups, first, n);
    var shown := if t == Permanent && !customer then Temporary else t;
    assert AllGroups(now, first, n, shown);
    if StartsWithSentinel(now, first, n) {
      SentinelIsNoType(now, first, n, shown);
    }
    ScanExact(now, first, n, shown);
  }

  /** Only groups of the range differ, whatever happened. */
  ghost predicate OnlyRange(was: seq<Group>, now: seq<Group>, first: nat, n: nat) {
    |now| == |was| && forall k :: 0 <= k < |was| && !(first <= k < first + n) ==> now[k] == was[k]
  }

  lemma RaiseOnlyRange(groups: seq<Group>, first: nat, done: nat, n: nat, level: Group)
    requires done <= n
    ensures OnlyRange(groups, Raise(groups, first, done, level), first, n)
  {
  }

  lemma LiftOnlyRange(groups: seq<Group>, first: nat, done: nat, n: nat)
    requires done <= n
    ensures OnlyRange(groups, Lift(groups, first, done), first, n)
  {
  }

  lemma NoBits(b: bv8)
    ensures b | 0 == b && b & !0 == b
  {
  }

  /** What the status query answers for a reported type. */
  function OtpAnswer(customer: bool, t: Option<WpType>): OtpStatus {
    if t == Some(if customer then Permanent else Temporary) then Locked
    else if t == Some(Disabled) then Unlocked
    else OtherStatus
  }

  /** Lock then query: the range is reported locked exactly when permanent
      protection is not disabled and no group of it already had a protection
      stronger than the lock applies, in both builds. */
  lemma LockedIsReported(customer: bool, usrWp: bv8, groups: seq<Group>, first: nat, n: nat)
    requires n > 0 && first + n <= |groups|
    requires usrWp & US_PERM_WP_DIS == 0
    ensures var now := Requested(Permanent, customer, usrWp, groups, first, n);
            OtpAnswer(customer, Reported(now, first, n)) == Locked
            <==> forall k :: first <= k < first + n ==> groups[k] <= (if customer then 3 else 1)
  {
    hide Reported;
    var level: Group := if customer then 3 else 1;
    var t := if customer then Permanent else Temporary;
    var now := Raise(groups, first, n, level);
    RaisedStartsClean(groups, first, n, level);
    ScanExact(now, first, n, t);
    assert AllGroups(now, first, n, t) <==> forall k :: first <= k < first + n ==> groups[k] <= level by {
      assert forall k :: first <= k < first + n ==> GroupAt(now, k) == Stronger(groups[k], level);
      if AllGroups(now, first, n, t) {
        forall k | first <= k < first + n ensures groups[k] <= level {
          assert GroupAt(now, k) == Code(t);
        }
      }
    }
  }

  /** A range in which every group is protected never reads as the start value. */
  lemma RaisedStartsClean(groups: seq<Group>, first: nat, n: nat, level: Group)
    requires first + n <= |groups| && level > 0
    ensures !StartsWithSentinel(Raise(groups, first, n, level), first, n)
  {
    var now := Raise(groups, first, n, level);
    var bytes := Scanned(now, first, n);
    if bytes != [] {
      var g := first + 4 * Unit(0, n);
      UnitTurnsBack(0, n);
      assert GroupAt(now, g + 1) != 0;
      NonZeroPack(GroupAt(now, g), GroupAt(now, g + 1), GroupAt(now, g + 2), GroupAt(now, g + 3));
      assert bytes[0] == StatusByte(now, g);
    }
  }

  lemma NonZeroPack(a: Group, b: Group, c: Group, d: Group)
    requires b != 0
    ensures Pack(a, b, c, d) != NONE_SEEN
  {
  }

  class Card {
    const wpSize: nat
    const nblks: nat
    const isMmc: bool
    const version4: bool
    const writeProtClass: bool
    const writeProtGrp: bool
    const customerBuild: bool
    const outcome: nat -> int
    var calls: nat
    var groups: seq<Group>
    var usrWpReg: bv8
    var usrWp: bv8

    ghost predicate Valid()
      reads this`groups
    {
      wpSize > 0 && nblks < U32 && |groups| == nblks / wpSize
    }

    /** Every command numbered `from..calls` succeeded. */
    ghost predicate AllOk(from: nat)
      reads this`calls
    {
      from <= calls && forall k :: from <= k < calls ==> outcome(k) == MMC_ERR_NONE
    }

    /** The result of a protection request that began with call `from`: failure if
        that first read failed, else what the last read said; the commands in
        between do not show in it. */
    ghost function LastSays(from: nat): int
      requires from < calls
      reads this`calls
    {
      if outcome(from) != MMC_ERR_NONE then MMC_ERR_FAILED else outcome(calls - 1)
    }

    /** One command to the card; which commands fail, and how, is arbitrary. */
    method Command() returns (err: int)
      modifies this`calls
      ensures calls == old(calls) + 1 && err == outcome(old(calls))
    {
      err := outcome(calls);
      calls := calls + 1;
    }

    method SendWriteProtType(wpAddr: nat, status: array<bv8>) returns (err: int)
      requires Valid() && status.Length == 8
      modifies this`calls, status
      ensures writeProtClass ==> calls == old(calls) + 1 && err == outcome(old(calls))
      ensures !writeProtClass ==> calls == old(calls) && err == MMC_ERR_INVALID
      ensures err == MMC_ERR_NONE ==>
        forall z :: 0 <= z < 8 ==> status[7 - z] == StatusByte(groups, wpAddr / wpSize + 4 * z)
    {
      if !writeProtClass {
        return MMC_ERR_INVALID;
      }
      err := Command();
      if err != MMC_ERR_NONE {
        return;
      }
      forall j | 0 <= j < 8 {
        status[j] := StatusByte(groups, wpAddr / wpSize + 4 * (7 - j));
      }
    }

    /** Compares the bytes of one whole command with each other and with `v`. */
    method CheckBytes(status: array<bv8>, v: bv8) returns (verified: bv8, mismatch: bool)
      requires status.Length == 8
      ensures Chain(v, status[..]) == if mismatch then None else Some(verified)
    {
      verified, mismatch := v, false;
      for j := 0 to 8
        invariant Chain(v, status[..]) == Chain(verified, status[j..])
      {
        assert status[j..][1..] == status[j + 1..];
        if status[j] != verified && NONE_SEEN != verified {
          return OTHER, true;
        }
        verified := status[j];
      }
    }

    /** The scan of all whole commands of a range. */
    method CheckBatches(blknr: nat, count: nat, status: array<bv8>) returns (err: int, verified: bv8, mismatch: bool)
      requires Valid() && status.Length == 8
      modifies this`calls, status
      ensures err == MMC_ERR_NONE ==> AllOk(old(calls))
      ensures err != MMC_ERR_NONE ==> old(calls) <= calls && (AllOk(old(calls)) ==> !writeProtClass)
      ensures err == MMC_ERR_NONE ==>
        Chain(NONE_SEEN, Scanned(groups, blknr / wpSize, count)[..8 * (count / 32)])
        == if mismatch then None else Some(verified)
    {
      hide StatusByte, Chain;
      ghost var bytes := Scanned(groups, blknr / wpSize, count);
      err, verified, mismatch := MMC_ERR_NONE, NONE_SEEN, false;
      EmptyChain();
      for i := 0 to count / 32
        invariant AllOk(old(calls)) && err == MMC_ERR_NONE && !mismatch
        invariant Chain(NONE_SEEN, bytes[..8 * i]) == Some(verified)
      {
        err := SendWriteProtType(blknr + i * 32 * wpSize, status);
        if err != MMC_ERR_NONE {
          return;
        }
        QuotientAdds(blknr, i * 32, wpSize);
        BatchIsScanned(groups, blknr / wpSize, count, i, status[..]);
        ghost var v := verified;
        verified, mismatch := CheckBytes(status, verified);
        BatchSplit(bytes, i, count);
        ChainJoin(NONE_SEEN, bytes[..8 * i], status[..]);
        if mismatch {
          ChainJoin(NONE_SEEN, bytes[..8 * (i + 1)], bytes[8 * (i + 1)..8 * (count / 32)]);
          assert bytes[..8 * (i + 1)] + bytes[8 * (i + 1)..8 * (count / 32)] == bytes[..8 * (count / 32)];
          return;
        }
      }
    }

    /** The scan: reads the protection of a range of whole groups back. */
    method CheckWriteProtTypeByGroups(blknr: nat, blkcnt: nat) returns (err: int, t: Option<WpType>)
      requires Valid()
      modifies this`calls
      ensures old(calls) <= calls
      ensures blkcnt % wpSize != 0 ==> err == MMC_ERR_FAILED
      ensures err == MMC_ERR_NONE ==> AllOk(old(calls)) && t == Reported(groups, blknr / wpSize, blkcnt / wpSize)
      ensures err != MMC_ERR_NONE ==>
        t == None && (AllOk(old(calls)) ==> !writeProtClass || blkcnt % wpSize != 0)
    {
      if blkcnt % wpSize != 0 {
        return MMC_ERR_FAILED, None;
      }
      err, t := CheckGroups(blknr, blkcnt / wpSize);
    }

    method CheckGroups(blknr: nat, count: nat) returns (err: int, t: Option<WpType>)
      requires Valid()
      modifies this`calls
      ensures old(calls) <= calls
      ensures err == MMC_ERR_NONE ==> AllOk(old(calls)) && t == Reported(groups, blknr / wpSize, count)
      ensures err != MMC_ERR_NONE ==> t == None && (AllOk(old(calls)) ==> !writeProtClass)
    {
      hide StatusByte, Chain, TypeOf, WithTail, Unit;
      var status := new bv8[8](_ => 0);
      var verified, mismatch;
      t := None;
      err, verified, mismatch := CheckBatches(blknr, count, status);
      if err != MMC_ERR_NONE {
        return;
      }
      WholeThenRest(groups, blknr / wpSize, count);
      if mismatch {
        return MMC_ERR_NONE, None;
      }
      err := SendWriteProtType(blknr + count / 32 * 32 * wpSize, status);
      if err != MMC_ERR_NONE {
        return;
      }
      QuotientAdds(blknr, count / 32 * 32, wpSize);
      t := CheckRest(blknr / wpSize, count, status, verified);
    }

    /** The remainder of the scan, after the whole commands: whole bytes, then one to three groups. */
    method CheckRest(ghost first: nat, count: nat, status: array<bv8>, v: bv8) returns (t: Option<WpType>)
      requires status.Length == 8
      requires forall z :: 0 <= z < 8 ==> status[7 - z] == StatusByte(groups, first + count / 32 * 32 + 4 * z)
      ensures t == match Chain(v, Scanned(groups, first, count)[8 * (count / 32)..])
                   case None => None
                   case Some(u) => TypeOf(WithTail(u, StatusByte(groups, first + count / 4 * 4), count % 4))
    {
      hide StatusByte, TypeOf, LowGroups, Unit;
      ghost var bytes := RestBytes(groups, first, count);
      var rest, verified := count % 32, v;
      for z := 0 to 8
        invariant rest == count % 32 - 4 * z && rest >= 0
        invariant Chain(v, bytes) == Chain(verified, bytes[z..])
      {
        if rest >= 4 {
          assert bytes[z..][1..] == bytes[z + 1..];
          if status[7 - z] != verified && NONE_SEEN != verified {
            return None;
          }
          verified := status[7 - z];
          rest := rest - 4;
        } else {
          assert bytes[z..] == [] && rest == count % 4;
          if rest >= 1 {
            t := TypeOf(WithTail(verified, status[7 - z], rest));
            return;
          }
          return TypeOf(verified);
        }
      }
      assert false;
    }

    // ----- Setting and clearing protection -----

    /** Reads the extended CSD; its protection byte is cached. */
    method ReadExtCsd() returns (err: int)
      modifies this`calls, this`usrWp
      ensures !version4 ==> err == MMC_ERR_NONE && calls == old(calls) && usrWp == old(usrWp)
      ensures version4 ==> calls == old(calls) + 1 && err == outcome(old(calls))
      ensures version4 ==> usrWp == if err == MMC_ERR_NONE then usrWpReg else old(usrWp)
    {
      if !version4 {
        return MMC_ERR_NONE;
      }
      err := Command();
      if err == MMC_ERR_NONE {
        usrWp := usrWpReg;
      }
    }

    /** Sets or clears bits of the card's protection byte. */
    method Switch(bits: bv8, on: bool) returns (err: int)
      modifies this`calls, this`usrWpReg
      ensures calls == old(calls) + 1 && err == outcome(old(calls))
      ensures usrWpReg == if err != MMC_ERR_NONE then old(usrWpReg)
                          else if on then old(usrWpReg) | bits else old(usrWpReg) & !bits
    {
      err := Command();
      if err == MMC_ERR_NONE {
        usrWpReg := if on then usrWpReg | bits else usrWpReg & !bits;
      }
    }

    /** Protects a range group by group; `done` groups were reached. */
    method SetWriteProtByGroups(blknr: nat, blkcnt: nat) returns (err: int, ghost done: nat)
      requires Valid()
      modifies this`calls, this`groups
      ensures Valid() && old(calls) <= calls
      ensures done <= blkcnt / wpSize && groups == Raise(old(groups), blknr / wpSize, done, Level(usrWpReg))
      ensures err == MMC_ERR_NONE ==> done == blkcnt / wpSize && AllOk(old(calls))
      ensures err != MMC_ERR_NONE ==> AllOk(old(calls)) ==> !writeProtClass || blkcnt % wpSize != 0
    {
      hide Level, Raise;
      done := 0;
      err := MMC_ERR_NONE;
      RaiseMore(groups, blknr / wpSize, 0, Level(usrWpReg));
      if blkcnt % wpSize != 0 {
        return MMC_ERR_FAILED, 0;
      }
      for index := 0 to blkcnt / wpSize
        invariant Valid() && AllOk(old(calls)) && err == MMC_ERR_NONE && done == index
        invariant groups == Raise(old(groups), blknr / wpSize, index, Level(usrWpReg))
      {
        if !writeProtClass {
          return MMC_ERR_INVALID, done;
        }
        err := Command();
        if err != MMC_ERR_NONE {
          return;
        }
        QuotientAdds(blknr, index, wpSize);
        RaiseMore(old(groups), blknr / wpSize, index, Level(usrWpReg));
        groups := Raise(groups, (blknr + index * wpSize) / wpSize, 1, Level(usrWpReg));
        done := index + 1;
      }
    }

    /** Lifts temporary protection of a range group by group. */
    method ClrWriteProtByGroups(blknr: nat, blkcnt: nat) returns (err: int, ghost done: nat)
      requires Valid()
      modifies this`calls, this`groups
      ensures Valid() && old(calls) <= calls
      ensures done <= blkcnt / wpSize && groups == Lift(old(groups), blknr / wpSize, done)
      ensures err == MMC_ERR_NONE ==> done == blkcnt / wpSize && AllOk(old(calls))
      ensures err != MMC_ERR_NONE ==> AllOk(old(calls)) ==> !writeProtClass || blkcnt % wpSize != 0
    {
      hide Lift;
      done := 0;
      err := MMC_ERR_NONE;
      LiftMore(groups, blknr / wpSize, 0);
      if blkcnt % wpSize != 0 {
        return MMC_ERR_FAILED, 0;
      }
      for index := 0 to blkcnt / wpSize
        invariant Valid() && AllOk(old(calls)) && err == MMC_ERR_NONE && done == index
        invariant groups == Lift(old(groups), blknr / wpSize, index)
      {
        if !writeProtClass {
          return MMC_ERR_INVALID, done;
        }
        err := Command();
        if err != MMC_ERR_NONE {
          return;
        }
        QuotientAdds(blknr, index, wpSize);
        LiftMore(old(groups), blknr / wpSize, index);
        groups := Lift(groups, (blknr + index * wpSize) / wpSize, 1);
        done := index + 1;
      }
    }

    /** Clears both enable bits, as far as the cached byte shows them set. */
    method ClearEnables() returns (err: int)
      modifies this`calls, this`usrWp, this`usrWpReg
      ensures old(calls) <= calls
      ensures (err == MMC_ERR_NONE) == AllOk(old(calls))
      ensures err == MMC_ERR_NONE && old(usrWp) == old(usrWpReg) ==>
        usrWpReg == usrWp == Disabling(old(usrWpReg))
    {
      err := MMC_ERR_NONE;
      if usrWp & US_PERM_WP_EN != 0 {
        usrWp := usrWp & !US_PERM_WP_EN;
        err := Switch(US_PERM_WP_EN, false);
        if err != MMC_ERR_NONE {
          assert outcome(old(calls)) != MMC_ERR_NONE;
          return;
        }
      }
      if usrWp & US_PWR_WP_EN != 0 {
        usrWp := usrWp & !US_PWR_WP_EN;
        err := Switch(US_PWR_WP_EN, false);
        if err != MMC_ERR_NONE {
          assert outcome(calls - 1) != MMC_ERR_NONE;
          return;
        }
      }
    }

    /** Protects a range with one enable bit set meanwhile, unless `bits` is zero. */
    method ProtectRange(enable: bv8, leave: bv8, blknr: nat, blkcnt: nat) returns (err: int)
      requires Valid()
      modifies this`calls, this`groups, this`usrWpReg
      ensures Valid() && old(calls) <= calls
      ensures OnlyRange(old(groups), groups, blknr / wpSize, blkcnt / wpSize)
      ensures err == MMC_ERR_NONE ==> AllOk(old(calls))
      ensures err != MMC_ERR_NONE ==> AllOk(old(calls)) ==> !writeProtClass || blkcnt % wpSize != 0
      ensures err == MMC_ERR_NONE ==> usrWpReg == (old(usrWpReg) | enable) & !leave
      ensures err == MMC_ERR_NONE ==>
        groups == Raise(old(groups), blknr / wpSize, blkcnt / wpSize, Level(old(usrWpReg) | enable))
    {
      hide Level, Raise, OnlyRange;
      RaiseOnlyRange(groups, blknr / wpSize, 0, blkcnt / wpSize, 0);
      RaiseMore(groups, blknr / wpSize, 0, 0);
      err := SwitchSome(enable, true);
      if err != MMC_ERR_NONE {
        return;
      }
      ghost var level := Level(usrWpReg);
      ghost var done;
      err, done := SetWriteProtByGroups(blknr, blkcnt);
      RaiseOnlyRange(old(groups), blknr / wpSize, done, blkcnt / wpSize, level);
      if err != MMC_ERR_NONE {
        return;
      }
      err := SwitchSome(leave, false);
    }

    /** A switch command, left out when there is no bit to change. */
    method SwitchSome(bits: bv8, on: bool) returns (err: int)
      modifies this`calls, this`usrWpReg
      ensures old(calls) <= calls && (err == MMC_ERR_NONE <==> AllOk(old(calls)))
      ensures err == MMC_ERR_NONE ==> usrWpReg == if on then old(usrWpReg) | bits else old(usrWpReg) & !bits
    {
      NoBits(usrWpReg);
      err := MMC_ERR_NONE;
      if bits != 0 {
        err := Switch(bits, on);
      }
      assert calls > old(calls) ==> outcome(old(calls)) == err;
    }

    lemma EnableLevels(usrWp: bv8)
      ensures Level(0) == 1 && Level(0x01) == 2 && Level(0x04) == 3 && Level(0x05) == 3 && Disabling(0xFF) == 0xFA
      ensures Level(Disabling(usrWp)) == 1 && Level(Disabling(usrWp) | 0) == 1
      ensures Level(Disabling(usrWp) | US_PWR_WP_EN) == 2
      ensures Level(Disabling(usrWp) | US_PERM_WP_EN) == 3
      ensures (Disabling(usrWp) | US_PWR_WP_EN) & !US_PWR_WP_EN == Disabling(usrWp)
      ensures (Disabling(usrWp) | US_PERM_WP_EN) & !US_PERM_WP_EN == Disabling(usrWp)
      ensures (Disabling(usrWp) | 0) & !US_PERM_WP_EN == (Disabling(usrWp) | 0) & !0 == Disabling(usrWp)
      ensures Disabling(usrWp) & US_PWR_WP_DIS == usrWp & US_PWR_WP_DIS
      ensures Disabling(usrWp) & US_PERM_WP_DIS == usrWp & US_PERM_WP_DIS
    {
    }

    lemma OnlyRangeSame(now: seq<Group>, first: nat, n: nat)
      ensures OnlyRange(now, now, first, n)
    {
    }

    /** Power-on protection; `reg` is the protection byte before its enable bits were cleared. */
    method ProtectPowerOn(blknr: nat, blkcnt: nat, ghost reg: bv8) returns (err: int)
      requires Valid()
      modifies this`calls, this`groups, this`usrWpReg
      ensures Valid() && old(calls) <= calls
      ensures OnlyRange(old(groups), groups, blknr / wpSize, blkcnt / wpSize)
      ensures old(usrWpReg) == usrWp == Disabling(reg) && writeProtClass && blkcnt % wpSize == 0 ==>
        AllOk(old(calls)) ==>
        && usrWpReg == Disabling(reg)
        && groups == Requested(PowerOn, customerBuild, reg, old(groups), blknr / wpSize, blkcnt / wpSize)
    {
      hide Level, Disabling, Raise, Lift, OnlyRange;
      EnableLevels(reg);
      OnlyRangeSame(groups, blknr / wpSize, blkcnt / wpSize);
      err := MMC_ERR_NONE;
      if usrWp & US_PWR_WP_DIS == 0 {
        err := ProtectRange(US_PWR_WP_EN, US_PWR_WP_EN, blknr, blkcnt);
      }
    }

    /** Permanent protection, which only the customer build asks for in earnest. */
    method ProtectPermanent(blknr: nat, blkcnt: nat, ghost reg: bv8) returns (err: int)
      requires Valid()
      modifies this`calls, this`groups, this`usrWpReg
      ensures Valid() && old(calls) <= calls
      ensures OnlyRange(old(groups), groups, blknr / wpSize, blkcnt / wpSize)
      ensures old(usrWpReg) == usrWp == Disabling(reg) && writeProtClass && blkcnt % wpSize == 0 ==>
        AllOk(old(calls)) ==>
        && usrWpReg == Disabling(reg)
        && groups == Requested(Permanent, customerBuild, reg, old(groups), blknr / wpSize, blkcnt / wpSize)
    {
      hide Level, Disabling, Raise, Lift, OnlyRange;
      EnableLevels(reg);
      OnlyRangeSame(groups, blknr / wpSize, blkcnt / wpSize);
      err := MMC_ERR_NONE;
      if usrWp & US_PERM_WP_DIS == 0 {
        if customerBuild {
          err := ProtectRange(US_PERM_WP_EN, US_PERM_WP_EN, blknr, blkcnt);
        } else {
          err := ProtectRange(0, US_PERM_WP_EN, blknr, blkcnt);
        }
      }
    }

    /** Temporary protection. */
    method ProtectTemporary(blknr: nat, blkcnt: nat, ghost reg: bv8) returns (err: int)
      requires Valid()
      modifies this`calls, this`groups, this`usrWpReg
      ensures Valid() && old(calls) <= calls
      ensures OnlyRange(old(groups), groups, blknr / wpSize, blkcnt / wpSize)
      ensures old(usrWpReg) == usrWp == Disabling(reg) && writeProtClass && blkcnt % wpSize == 0 ==>
        AllOk(old(calls)) ==>
        && usrWpReg == Disabling(reg)
        && groups == Requested(Temporary, customerBuild, reg, old(groups), blknr / wpSize, blkcnt / wpSize)
    {
      hide Level, Disabling, Raise, Lift, OnlyRange;
      EnableLevels(reg);
      NoBits(Disabling(reg));
      err := ProtectRange(0, 0, blknr, blkcnt);
    }

    /** Lifts temporary protection. */
    method Unprotect(blknr: nat, blkcnt: nat, ghost reg: bv8) returns (err: int)
      requires Valid()
      modifies this`calls, this`groups, this`usrWpReg
      ensures Valid() && old(calls) <= calls
      ensures OnlyRange(old(groups), groups, blknr / wpSize, blkcnt / wpSize)
      ensures old(usrWpReg) == usrWp == Disabling(reg) && writeProtClass && blkcnt % wpSize == 0 ==>
        AllOk(old(calls)) ==>
        && usrWpReg == Disabling(reg)
        && groups == Requested(Disabled, customerBuild, reg, old(groups), blknr / wpSize, blkcnt / wpSize)
    {
      hide Level, Disabling, Raise, Lift, OnlyRange;
      ghost var done;
      err, done := ClrWriteProtByGroups(blknr, blkcnt);
      LiftOnlyRange(old(groups), blknr / wpSize, done, blkcnt / wpSize);
    }

    /** The part of a protection request that depends on its type. */
    method ApplyType(t: WpType, blknr: nat, blkcnt: nat, ghost reg: bv8) returns (err: int)
      requires Valid()
      modifies this`calls, this`groups, this`usrWpReg
      ensures Valid() && old(calls) <= calls
      ensures OnlyRange(old(groups), groups, blknr / wpSize, blkcnt / wpSize)
      ensures old(usrWpReg) == usrWp == Disabling(reg) && writeProtClass && blkcnt % wpSize == 0 ==>
        AllOk(old(calls)) ==>
        && usrWpReg == Disabling(reg)
        && groups == Requested(t, customerBuild, reg, old(groups), blknr / wpSize, blkcnt / wpSize)
    {
      hide Requested, Disabling, OnlyRange;
      match t {
        case PowerOn => err := ProtectPowerOn(blknr, blkcnt, reg);
        case Permanent => err := ProtectPermanent(blknr, blkcnt, reg);
        case Temporary => err := ProtectTemporary(blknr, blkcnt, reg);
        case Disabled => err := Unprotect(blknr, blkcnt, reg);
      }
    }

    /** Protection of a range of the user area.  The result is that of the final
        read of the extended CSD, whatever happened before it. */
    method SetUserWp(t: WpType, blknr: nat, blkcnt: nat) returns (err: int)
      requires Valid()
      modifies this`calls, this`groups, this`usrWp, this`usrWpReg
      ensures Valid() && old(calls) <= calls
      ensures OnlyRange(old(groups), groups, blknr / wpSize, blkcnt / wpSize)
      ensures !writeProtGrp ==> err == MMC_ERR_FAILED && groups == old(groups)
      ensures forall k :: 0 <= k < |groups| && !(blknr / wpSize <= k < blknr / wpSize + blkcnt / wpSize) ==>
        groups[k] == old(groups)[k]
      ensures writeProtGrp && version4 ==> old(calls) < calls && err == LastSays(old(calls))
      ensures writeProtGrp && version4 && outcome(old(calls)) != MMC_ERR_NONE ==> err == MMC_ERR_FAILED
      ensures writeProtGrp && version4 && outcome(old(calls)) == MMC_ERR_NONE ==> err == outcome(calls - 1)
      ensures writeProtGrp && version4 && (forall k :: outcome(k) == MMC_ERR_NONE) ==> err == MMC_ERR_NONE
      ensures writeProtGrp && version4 && writeProtClass && blkcnt % wpSize == 0 && AllOk(old(calls)) ==>
        && usrWpReg == Disabling(old(usrWpReg))
        && groups == Requested(t, customerBuild, old(usrWpReg), old(groups), blknr / wpSize, blkcnt / wpSize)
    {
      hide Disabling, Requested;
      OnlyRangeSame(groups, blknr / wpSize, blkcnt / wpSize);
      if !writeProtGrp {
        return MMC_ERR_FAILED;
      }
      err := ReadExtCsd();
      if err != MMC_ERR_NONE {
        return MMC_ERR_FAILED;
      }
      err := ClearEnables();
      if err == MMC_ERR_NONE {
        err := ApplyType(t, blknr, blkcnt, old(usrWpReg));
      }
      err := ReadExtCsd();
    }

    // ----- One-time-programmable ranges -----

    /** Boot partitions have a protection byte of their own, which is not modelled. */
    method SetBootWp() returns (err: int)
      modifies this`calls
      ensures old(calls) <= calls
    {
      err := Command();
    }

    method SetWriteProtect(partition: Region, blknr: nat, blkcnt: nat, t: WpType) returns (err: int)
      requires Valid()
      modifies this`calls, this`groups, this`usrWp, this`usrWpReg
      ensures Valid() && old(calls) <= calls
      ensures OnlyRange(old(groups), groups, blknr / wpSize, blkcnt / wpSize)
      ensures partition != User ==> groups == old(groups)
      ensures partition.OtherRegion? || (partition != User && t != PowerOn) ==> err == MMC_ERR_FAILED
      ensures partition == User && (blknr % wpSize != 0 || blkcnt % wpSize != 0 || blknr + blkcnt > nblks) ==>
        err == MMC_ERR_FAILED && groups == old(groups)
      ensures partition == User && blknr % wpSize == 0 && blkcnt % wpSize == 0 && blknr + blkcnt <= nblks ==>
        writeProtGrp && version4 ==> old(calls) < calls && err == LastSays(old(calls))
      ensures partition == User && blknr % wpSize == 0 && blkcnt % wpSize == 0 && blknr + blkcnt <= nblks ==>
        writeProtGrp && version4 && writeProtClass && AllOk(old(calls)) ==>
        && err == MMC_ERR_NONE
        && groups == Requested(t, customerBuild, old(usrWpReg), old(groups), blknr / wpSize, blkcnt / wpSize)
    {
      hide Requested;
      if partition == User {
        if blknr % wpSize != 0 || blkcnt % wpSize != 0 || blknr + blkcnt > nblks {
          return MMC_ERR_FAILED;
        }
        err := SetUserWp(t, blknr, blkcnt);
      } else if t == PowerOn && (partition == Boot1 || partition == Boot2) {
        err := SetBootWp();
      } else {
        err := MMC_ERR_FAILED;
      }
    }

    /** The block a one-time-programmable range starts at: the next group boundary. */
    method OtpStart(otpStart: nat) returns (addr: nat)
      requires wpSize > 0
      ensures !isMmc ==> addr == 0
      ensures isMmc && RoundUp(otpStart, wpSize) < U32 ==> addr == RoundUp(otpStart, wpSize)
    {
      addr := otpStart % U32;
      if !isMmc {
        return 0;
      }
      assert otpStart < U32 ==> addr == otpStart;
      var rest := addr % wpSize;
      if rest != 0 {
        addr := (addr + (wpSize - rest)) % U32;
      }
    }

    /** The groups a range covers once rounded. */
    function Covered(blknr: nat, blkcnt: nat): (r: (nat, nat))
      requires wpSize > 0
    {
      (RoundUp(blknr, wpSize) / wpSize, CeilDiv(blkcnt, wpSize))
    }

    /** They begin at the first group boundary in or after the range, and are as many
        as its length takes up. */
    lemma CoveredRange(blknr: nat, blkcnt: nat)
      requires wpSize > 0
      ensures var (first, n) := Covered(blknr, blkcnt);
              && first * wpSize == RoundUp(blknr, wpSize) && blknr <= first * wpSize < blknr + wpSize
              && blkcnt <= n * wpSize < blkcnt + wpSize
    {
      RoundUpAligned(blknr, wpSize);
      DivModOf(RoundUp(blknr, wpSize), wpSize);
      CeilDivCovers(blkcnt, wpSize);
    }

    /** The group a block lies in. */
    function GroupOf(b: nat): (g: nat)
      requires wpSize > 0
    {
      b / wpSize
    }

    lemma GroupHolds(b: nat)
      requires wpSize > 0
      ensures GroupOf(b) * wpSize <= b < GroupOf(b) * wpSize + wpSize
    {
      DivModOf(b, wpSize);
    }

    /** A block of the range once its start is rounded up. */
    predicate Meant(blknr: nat, blkcnt: nat, b: nat)
      requires wpSize > 0
    {
      RoundUp(blknr, wpSize) <= b < RoundUp(blknr, wpSize) + blkcnt
    }

    lemma MeantBlocks(blknr: nat, blkcnt: nat, b: nat)
      requires wpSize > 0
      ensures Meant(blknr, blkcnt, b) <==>
        exists start: nat :: start % wpSize == 0 && blknr <= start < blknr + wpSize && start <= b < start + blkcnt
    {
      RoundUpAligned(blknr, wpSize);
      forall start: nat | start % wpSize == 0 && blknr <= start < blknr + wpSize
        ensures start == RoundUp(blknr, wpSize)
      {
        AlignedOnce(blknr, wpSize, start, RoundUp(blknr, wpSize));
      }
    }

    /** A range fits when a group's worth of room is left for each rounding. */
    lemma FitsWithRoom(blknr: nat, blkcnt: nat)
      requires wpSize > 0 && blknr + blkcnt + 2 * wpSize <= nblks
      ensures Fits(blknr, blkcnt)
    {
      CeilDivCovers(blkcnt, wpSize);
    }

    ghost predicate Fits(blknr: nat, blkcnt: nat)
      requires wpSize > 0
    {
      RoundUp(blknr, wpSize) + CeilDiv(blkcnt, wpSize) * wpSize <= nblks
    }

    lemma CoveredInside(blknr: nat, blkcnt: nat)
      requires wpSize > 0 && Fits(blknr, blkcnt)
      ensures var (first, n) := Covered(blknr, blkcnt); first + n <= nblks / wpSize
    {
      var c := CeilDiv(blkcnt, wpSize);
      QuotientAdds(RoundUp(blknr, wpSize), c, wpSize);
      QuotientGrows(RoundUp(blknr, wpSize) + c * wpSize, nblks, wpSize);
    }

    /** The covered groups are exactly those in which a block of the range lies. */
    lemma CoveredBlocks(blknr: nat, blkcnt: nat, k: nat)
      requires wpSize > 0
      ensures var (first, n) := Covered(blknr, blkcnt);
              first <= k < first + n <==> exists b: nat :: Meant(blknr, blkcnt, b) && GroupOf(b) == k
    {
      hide RoundUp, CeilDiv, Covered, GroupOf;
      CoveredRange(blknr, blkcnt);
      var (first, n) := Covered(blknr, blkcnt);
      if first <= k < first + n {
        GroupHasBlock(first, n, k, blkcnt);
        assert Meant(blknr, blkcnt, k * wpSize) && GroupOf(k * wpSize) == k;
      }
      forall b: nat | Meant(blknr, blkcnt, b) ensures first <= GroupOf(b) < first + n {
        BlockIsCovered(first, n, b, blkcnt);
      }
    }

    lemma BlocksAt(blknr: nat, blkcnt: nat, gs: seq<Group>, level: Group)
      requires wpSize > 0
      ensures var (first, n) := Covered(blknr, blkcnt);
              && ((forall k :: first <= k < first + n ==> GroupAt(gs, k) == level)
                  <==> forall b: nat :: Meant(blknr, blkcnt, b) ==> GroupAt(gs, GroupOf(b)) == level)
              && ((forall k :: first <= k < first + n ==> GroupAt(gs, k) <= level)
                  <==> forall b: nat :: Meant(blknr, blkcnt, b) ==> GroupAt(gs, GroupOf(b)) <= level)
    {
      hide Covered, Meant, GroupOf, GroupAt;
      var (first, n) := Covered(blknr, blkcnt);
      forall b: nat | Meant(blknr, blkcnt, b) ensures first <= GroupOf(b) < first + n {
        CoveredBlocks(blknr, blkcnt, GroupOf(b));
      }
      forall k {:trigger GroupAt(gs, k)} | first <= k < first + n
        ensures exists b: nat :: Meant(blknr, blkcnt, b) && GroupOf(b) == k
      {
        CoveredBlocks(blknr, blkcnt, k);
      }
    }

    /** What a status says about the blocks of a range. */
    lemma StatusOfBlocks(blknr: nat, blkcnt: nat, gs: seq<Group>)
      requires wpSize > 0 && blkcnt > 0
      ensures var (first, n) := Covered(blknr, blkcnt);
              var status := OtpAnswer(customerBuild, Reported(gs, first, n));
              var locked: Group := if customerBuild then 3 else 1;
              !StartsWithSentinel(gs, first, n) ==>
                && (status == Locked <==>
                    forall b: nat :: Meant(blknr, blkcnt, b) ==> GroupAt(gs, GroupOf(b)) == locked)
                && (status == Unlocked <==>
                    forall b: nat :: Meant(blknr, blkcnt, b) ==> GroupAt(gs, GroupOf(b)) == 0)
    {
      hide Covered, Meant, GroupOf, GroupAt, Reported, StartsWithSentinel;
      var (first, n) := Covered(blknr, blkcnt);
      var t := if customerBuild then Permanent else Temporary;
      assert n > 0 by {
        CoveredRange(blknr, blkcnt);
      }
      if !StartsWithSentinel(gs, first, n) {
        ScanExact(gs, first, n, t);
        ScanExact(gs, first, n, Disabled);
        BlocksAt(blknr, blkcnt, gs, Code(t));
        BlocksAt(blknr, blkcnt, gs, 0);
      }
    }

    lemma GroupHasBlock(first: nat, n: nat, k: nat, blkcnt: nat)
      requires wpSize > 0 && n * wpSize < blkcnt + wpSize && first <= k < first + n
      ensures first * wpSize <= k * wpSize < first * wpSize + blkcnt && GroupOf(k * wpSize) == k
    {
      Grows(first, k, wpSize);
      assert (k - first) * wpSize == k * wpSize - first * wpSize;
      Grows(k - first + 1, n, wpSize);
      assert (k - first + 1) * wpSize == (k - first) * wpSize + wpSize;
      Quotient(k * wpSize, wpSize, k, 0);
    }

    lemma BlockIsCovered(first: nat, n: nat, b: nat, blkcnt: nat)
      requires wpSize > 0 && blkcnt <= n * wpSize && first * wpSize <= b < first * wpSize + blkcnt
      ensures first <= GroupOf(b) < first + n
    {
      Quotient(first * wpSize, wpSize, first, 0);
      QuotientGrows(first * wpSize, b, wpSize);
      assert (first + n) * wpSize == first * wpSize + n * wpSize;
      QuotientBelow(b, wpSize, first + n);
    }

    /** The number of groups to cover, as the 32-bit code computes it. */
    method GroupCount(blkcnt: nat) returns (countWp: nat)
      requires wpSize > 0
      ensures CeilDiv(blkcnt, wpSize) < U32 ==> countWp == CeilDiv(blkcnt, wpSize)
    {
      if blkcnt % wpSize != 0 {
        countWp := (blkcnt / wpSize + 1) % U32;
      } else {
        countWp := blkcnt / wpSize % U32;
      }
    }

    /** The lock, by the groups it covers. */
    method LockGroups(blknr: nat, blkcnt: nat, partition: Region) returns (err: int)
      requires Valid()
      modifies this`calls, this`groups, this`usrWp, this`usrWpReg
      ensures Valid() && old(calls) <= calls
      ensures !isMmc || !version4 || !writeProtGrp || partition != User ==>
        err == MMC_ERR_FAILED && groups == old(groups)
      ensures isMmc && version4 && writeProtGrp && Fits(blknr, blkcnt) ==>
        (var (first, n) := Covered(blknr, blkcnt); OnlyRange(old(groups), groups, first, n))
      ensures isMmc && version4 && writeProtGrp && Fits(blknr, blkcnt) && partition == User ==>
        old(calls) < calls && err == LastSays(old(calls))
      ensures isMmc && version4 && writeProtGrp && Fits(blknr, blkcnt) && partition == User ==>
        writeProtClass && AllOk(old(calls)) ==>
        (var (first, n) := Covered(blknr, blkcnt);
         err == MMC_ERR_NONE && groups == Requested(Permanent, customerBuild, old(usrWpReg), old(groups), first, n))
    {
      hide Requested, OnlyRange;
      if !isMmc {
        return MMC_ERR_FAILED;
      }
      if !version4 {
        return MMC_ERR_FAILED;
      }
      if !writeProtGrp {
        return MMC_ERR_FAILED;
      }
      var blkno := OtpStart(blknr);
      var countWp := GroupCount(blkcnt);
      CeilDivCovers(blkcnt, wpSize);
      RoundUpAligned(blknr, wpSize);
      err := SetWriteProtect(partition, blkno, (wpSize * countWp) % U32, Permanent);
    }

    /** Locks a range for good (in the customer build) or temporarily (in the default one). */
    method OtpLock(blknr: nat, blkcnt: nat, partition: Region) returns (err: int)
      requires Valid()
      modifies this`calls, this`groups, this`usrWp, this`usrWpReg
      ensures Valid() && old(calls) <= calls
      ensures !isMmc || !version4 || !writeProtGrp || partition != User ==>
        err == MMC_ERR_FAILED && groups == old(groups)
      ensures isMmc && version4 && writeProtGrp && Fits(blknr, blkcnt) ==>
        (var (first, n) := Covered(blknr, blkcnt); OnlyRange(old(groups), groups, first, n))
      ensures isMmc && version4 && writeProtGrp && Fits(blknr, blkcnt) && partition == User ==>
        old(calls) < calls && err == LastSays(old(calls))
      ensures isMmc && version4 && writeProtGrp && Fits(blknr, blkcnt) && partition == User ==>
        writeProtClass && AllOk(old(calls)) ==>
        (var (first, n) := Covered(blknr, blkcnt);
         err == MMC_ERR_NONE && groups == Requested(Permanent, customerBuild, old(usrWpReg), old(groups), first, n))
      // In blocks: every group of the rounded range is at least at the lock's level, and no other has changed.
      ensures isMmc && version4 && writeProtGrp && Fits(blknr, blkcnt) && partition == User && writeProtClass ==>
        old(usrWpReg) & US_PERM_WP_DIS == 0 && AllOk(old(calls)) ==>
        forall b: nat :: Meant(blknr, blkcnt, b) ==>
          GroupOf(b) < |groups| && groups[GroupOf(b)] >= (if customerBuild then 3 else 1)
      ensures isMmc && version4 && writeProtGrp && Fits(blknr, blkcnt) ==>
        forall k :: 0 <= k < |groups| && groups[k] != old(groups)[k] ==>
          exists b: nat :: Meant(blknr, blkcnt, b) && GroupOf(b) == k
    {
      hide Requested, OnlyRange, RoundUp, CeilDiv, Fits, Covered, GroupOf, Meant;
      err := LockGroups(blknr, blkcnt, partition);
      if isMmc && version4 && writeProtGrp && Fits(blknr, blkcnt) {
        ChangedBlocks(blknr, blkcnt, old(groups), groups);
        if partition == User && old(usrWpReg) & US_PERM_WP_DIS == 0 {
          LockedBlocks(blknr, blkcnt, old(usrWpReg), old(groups));
        }
      }
    }

    lemma LockedBlocks(blknr: nat, blkcnt: nat, usrWp: bv8, was: seq<Group>)
      requires wpSize > 0 && nblks / wpSize == |was| && Fits(blknr, blkcnt) && usrWp & US_PERM_WP_DIS == 0
      ensures var (first, n) := Covered(blknr, blkcnt);
              var now := Requested(Permanent, customerBuild, usrWp, was, first, n);
              forall b: nat :: Meant(blknr, blkcnt, b) ==>
                GroupOf(b) < |now| && now[GroupOf(b)] >= (if customerBuild then 3 else 1)
    {
      hide Requested, Covered, GroupOf, Meant;
      var (first, n) := Covered(blknr, blkcnt);
      var now := Requested(Permanent, customerBuild, usrWp, was, first, n);
      CoveredInside(blknr, blkcnt);
      hide Fits;
      forall b: nat | Meant(blknr, blkcnt, b)
        ensures GroupOf(b) < |now| && now[GroupOf(b)] >= (if customerBuild then 3 else 1)
      {
        CoveredBlocks(blknr, blkcnt, GroupOf(b));
        RequestedAt(Permanent, customerBuild, usrWp, was, first, n, GroupOf(b));
      }
    }

    lemma ChangedBlocks(blknr: nat, blkcnt: nat, was: seq<Group>, now: seq<Group>)
      requires wpSize > 0
      ensures var (first, n) := Covered(blknr, blkcnt);
              OnlyRange(was, now, first, n) ==>
                forall k :: 0 <= k < |now| && now[k] != was[k] ==>
                  exists b: nat :: Meant(blknr, blkcnt, b) && GroupOf(b) == k
    {
      hide Covered, GroupOf, Meant;
      var (first, n) := Covered(blknr, blkcnt);
      if OnlyRange(was, now, first, n) {
        forall k | 0 <= k < |now| && now[k] != was[k]
          ensures exists b: nat :: Meant(blknr, blkcnt, b) && GroupOf(b) == k
        {
          CoveredBlocks(blknr, blkcnt, k);
        }
      }
    }

    /** Reports whether a range is locked. */
    method OtpQuery(blknr: nat, blkcnt: nat) returns (err: int, status: OtpStatus)
      requires Valid()
      modifies this`calls
      ensures old(calls) <= calls
      ensures !isMmc || !version4 ==> err == MMC_ERR_FAILED
      ensures err == MMC_ERR_NONE && Fits(blknr, blkcnt) ==>
        (var (first, n) := Covered(blknr, blkcnt); status == OtpAnswer(customerBuild, Reported(groups, first, n)))
      ensures isMmc && version4 && writeProtClass && Fits(blknr, blkcnt) && AllOk(old(calls)) ==> err == MMC_ERR_NONE
      // In blocks, unless the scan starts on its sentinel.
      ensures err == MMC_ERR_NONE && Fits(blknr, blkcnt) && blkcnt > 0 ==>
        (var (first, n) := Covered(blknr, blkcnt);
         var locked: Group := if customerBuild then 3 else 1;
         !StartsWithSentinel(groups, first, n) ==>
           && (status == Locked <==>
               forall b: nat :: Meant(blknr, blkcnt, b) ==> GroupAt(groups, GroupOf(b)) == locked)
           && (status == Unlocked <==>
               forall b: nat :: Meant(blknr, blkcnt, b) ==> GroupAt(groups, GroupOf(b)) == 0))
    {
      hide Reported, Meant, GroupOf, GroupAt, StartsWithSentinel;
      if blkcnt > 0 {
        StatusOfBlocks(blknr, blkcnt, groups);
      }
      status := OtherStatus;
      if !isMmc {
        return MMC_ERR_FAILED, status;
      }
      if !version4 {
        return MMC_ERR_FAILED, status;
      }
      var blkno := OtpStart(blknr);
      var countWp := GroupCount(blkcnt);
      CeilDivCovers(blkcnt, wpSize);
      var t;
      err, t := CheckWriteProtTypeByGroups(blkno, (wpSize * countWp) % U32);
      if err != MMC_ERR_NONE {
        return MMC_ERR_FAILED, status;
      }
      if t == Some(if customerBuild then Permanent else Temporary) {
        status := Locked;
      } else if t == Some(Disabled) {
        status := Unlocked;
      }
      err := MMC_ERR_NONE;
    }

    /** The lock and the query, by groups. */
    method LockThenQueryGroups(blknr: nat, blkcnt: nat) returns (lockErr: int, err: int, status: OtpStatus)
      requires Valid() && isMmc && version4 && writeProtGrp && writeProtClass
      requires 0 < blkcnt && Fits(blknr, blkcnt)
      modifies this`calls, this`groups, this`usrWp, this`usrWpReg
      ensures Valid() && old(calls) <= calls
      ensures var (first, n) := Covered(blknr, blkcnt);
              && OnlyRange(old(groups), groups, first, n)
              && (err == MMC_ERR_NONE ==> status == OtpAnswer(customerBuild, Reported(groups, first, n)))
      ensures AllOk(old(calls)) ==> lockErr == err == MMC_ERR_NONE
      ensures AllOk(old(calls)) && old(usrWpReg) & US_PERM_WP_DIS == 0 ==>
        (var (first, n) := Covered(blknr, blkcnt);
         && first + n <= |old(groups)|
         && (status == Locked <==>
             forall k :: first <= k < first + n ==> old(groups)[k] <= (if customerBuild then 3 else 1)))
      ensures AllOk(old(calls)) && old(usrWpReg) & US_PERM_WP_DIS != 0 ==>
        (var (first, n) := Covered(blknr, blkcnt);
         var t := if customerBuild then Permanent else Temporary;
         && groups == old(groups)
         && (status == Locked <==> RestUniform(groups, first, n, t))
         && (!StartsWithSentinel(groups, first, n) ==> (status == Locked <==> AllGroups(groups, first, n, t))))
    {
      hide Requested, Reported, RestUniform, StartsWithSentinel;
      CoveredInside(blknr, blkcnt);
      CeilDivCovers(blkcnt, wpSize);
      lockErr := OtpLock(blknr, blkcnt, User);
      ghost var lockOk, middle := AllOk(old(calls)), calls;
      err, status := OtpQuery(blknr, blkcnt);
      assert AllOk(old(calls)) ==> lockOk && AllOk(middle);
      var (first, n) := Covered(blknr, blkcnt);
      if old(usrWpReg) & US_PERM_WP_DIS == 0 {
        LockedIsReported(customerBuild, old(usrWpReg), old(groups), first, n);
      } else {
        var t := if customerBuild then Permanent else Temporary;
        DisabledLocksNothing(customerBuild, old(usrWpReg), old(groups), first, n);
        ReportedIs(groups, first, n, t);
        if !StartsWithSentinel(groups, first, n) {
          ScanExact(groups, first, n, t);
        }
      }
    }

    /** Locking a range and querying it with the same arguments, all commands
        succeeding.  Where permanent protection is allowed, the query says "locked"
        if and only if no group was already protected beyond what the lock applies;
        where it is disabled, the lock reports success but has protected nothing, and
        the query says what the scan of the old groups shows. */
    method LockThenQuery(blknr: nat, blkcnt: nat) returns (lockErr: int, err: int, status: OtpStatus)
      requires Valid() && isMmc && version4 && writeProtGrp && writeProtClass
      requires 0 < blkcnt && Fits(blknr, blkcnt)
      modifies this`calls, this`groups, this`usrWp, this`usrWpReg
      ensures Valid() && old(calls) <= calls
      ensures var (first, n) := Covered(blknr, blkcnt);
              && OnlyRange(old(groups), groups, first, n)
              && (err == MMC_ERR_NONE ==> status == OtpAnswer(customerBuild, Reported(groups, first, n)))
      ensures AllOk(old(calls)) ==> lockErr == err == MMC_ERR_NONE
      ensures AllOk(old(calls)) && old(usrWpReg) & US_PERM_WP_DIS == 0 ==>
        (var (first, n) := Covered(blknr, blkcnt);
         && first + n <= |old(groups)|
         && (status == Locked <==>
             forall k :: first <= k < first + n ==> old(groups)[k] <= (if customerBuild then 3 else 1)))
      ensures AllOk(old(calls)) && old(usrWpReg) & US_PERM_WP_DIS == 0 ==>
        (status == Locked <==>
         forall b: nat :: Meant(blknr, blkcnt, b) ==>
           GroupAt(old(groups), GroupOf(b)) <= (if customerBuild then 3 else 1))
      ensures AllOk(old(calls)) && old(usrWpReg) & US_PERM_WP_DIS != 0 ==>
        (var (first, n) := Covered(blknr, blkcnt);
         var t := if customerBuild then Permanent else Temporary;
         && groups == old(groups)
         && (status == Locked <==> RestUniform(groups, first, n, t))
         && (!StartsWithSentinel(groups, first, n) ==> (status == Locked <==> AllGroups(groups, first, n, t))))
    {
      hide Requested, Reported, RestUniform, StartsWithSentinel, Meant, GroupOf, Covered, GroupAt, AllGroups, OnlyRange;
      BlocksAt(blknr, blkcnt, groups, if customerBuild then 3 else 1);
      ghost var was := groups;
      lockErr, err, status := LockThenQueryGroups(blknr, blkcnt);
      var (first, n) := Covered(blknr, blkcnt);
      if first + n <= |was| {
        GroupsAre(was, first, n);
      }
    }

    lemma GroupsAre(gs: seq<Group>, first: nat, n: nat)
      requires first + n <= |gs|
      ensures forall k :: first <= k < first + n ==> GroupAt(gs, k) == gs[k]
    {
    }
  }

  lemma DisabledLocksNothing(customer: bool, usrWp: bv8, groups: seq<Group>, first: nat, n: nat)
    requires usrWp & US_PERM_WP_DIS != 0
    ensures Requested(Permanent, customer, usrWp, groups, first, n) == groups
  {
  }
}
