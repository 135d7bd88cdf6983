/** Write-protection types of eMMC groups and the scan that reads them back
    (mmc_core.c; JESD84-B51).

    The card reports two bits a group, four groups a byte, 32 groups a command. */
module WriteProtectScan {
  import opened Wrappers

  /** Protection of one group: none, temporary, power-on or permanent. */
  type Group = b: bv8 | b < 4

  datatype WpType = Temporary | PowerOn | Permanent | Disabled

  function Code(t: WpType): Group {
    match t
    case Temporary => 1
    case PowerOn => 2
    case Permanent => 3
    case Disabled => 0
  }

  function Pattern(t: WpType): bv8 {
    match t
    case Temporary => 0x55
    case PowerOn => 0xAA
    case Permanent => 0xFF
    case Disabled => 0
  }

  const NONE_SEEN: bv8 := 1
  const OTHER: bv8 := 2

  function Pack(a: Group, b: Group, c: Group, d: Group): bv8 {
    a | (b << 2) | (c << 4) | (d << 6)
  }

  /** Groups outside the card report "not protected". */
  function GroupAt(groups: seq<Group>, g: nat): Group {
    if g < |groups| then groups[g] else 0
  }

  /** The status byte of the four groups from `g`. */
  function StatusByte(groups: seq<Group>, g: nat): bv8 {
    Pack(GroupAt(groups, g), GroupAt(groups, g + 1), GroupAt(groups, g + 2), GroupAt(groups, g + 3))
  }

  /** Each group has its two bits of the byte, the first group the lowest. */
  lemma BitsOfGroups(groups: seq<Group>, g: nat)
    ensures var b := StatusByte(groups, g);
            && b & 3 == GroupAt(groups, g) && (b >> 2) & 3 == GroupAt(groups, g + 1)
            && (b >> 4) & 3 == GroupAt(groups, g + 2) && b >> 6 == GroupAt(groups, g + 3)
  {
  }

  ghost predicate AllGroups(groups: seq<Group>, first: nat, count: nat, t: WpType) {
    forall k :: first <= k < first + count ==> GroupAt(groups, k) == Code(t)
  }

  lemma PatternMeansAll(a: Group, b: Group, c: Group, d: Group, t: WpType)
    ensures Pack(a, b, c, d) == Pattern(t) <==> a == b == c == d == Code(t)
  {
  }

  // ----- What the scan computes -----

  /** The byte that the scan reads at step `p`: whole commands are read from their
      last byte to their first, the remainder from its first byte on. */
  function Unit(p: nat, count: nat): nat {
    if p < 8 * (count / 32) then 8 * (p / 8) + 7 - p % 8 else p
  }

  /** All fully covered status bytes, in the order of the scan. */
  function Scanned(groups: seq<Group>, first: nat, count: nat): (bytes: seq<bv8>)
    ensures |bytes| == count / 4
    ensures forall p :: 0 <= p < |bytes| ==> bytes[p] == StatusByte(groups, first + 4 * Unit(p, count))
  {
    seq(count / 4, p requires 0 <= p < count / 4 => StatusByte(groups, first + 4 * Unit(p, count)))
  }

  /** The last byte accepted after `v`, or nothing on a mismatch.  A byte equal to
      the start value makes the scan forget what it has seen. */
  function Chain(v: bv8, bytes: seq<bv8>): Option<bv8>
    decreases |bytes|
  {
    if bytes == [] then Some(v)
    else if bytes[0] != v && v != NONE_SEEN then None
    else Chain(bytes[0], bytes[1..])
  }

  /** The low bits of a byte that belong to its first `r` groups. */
  function LowGroups(b: bv8, r: nat): bv8
    requires 1 <= r <= 3
  {
    b & (0xFF >> (8 - r * 2))
  }

  /** The accepted value after the last, partly covered byte. */
  function WithTail(v: bv8, tail: bv8, r: nat): bv8
    requires r <= 3
  {
    if r == 0 then v
    else if v != NONE_SEEN then (if LowGroups(tail, r) != v >> (8 - r * 2) then OTHER else v)
    else if LowGroups(tail, r) == 0x55 >> (8 - r * 2) then 0x55
    else if LowGroups(tail, r) == 0xAA >> (8 - r * 2) then 0xAA
    else if LowGroups(tail, r) == 0xFF >> (8 - r * 2) then 0xFF
    else if LowGroups(tail, r) == 0 >> (8 - r * 2) then 0
    else OTHER
  }

  function TypeOf(v: bv8): Option<WpType> {
    if v == 0x55 then Some(Temporary)
    else if v == 0xAA then Some(PowerOn)
    else if v == 0xFF then Some(Permanent)
    else if v == 0 then Some(Disabled)
    else None
  }

  /** The type the scan reports for `count` groups, or nothing. */
  function Reported(groups: seq<Group>, first: nat, count: nat): Option<WpType> {
    match Chain(NONE_SEEN, Scanned(groups, first, count))
    case None => None
    case Some(v) => TypeOf(WithTail(v, StatusByte(groups, first + count / 4 * 4), count % 4))
  }

  // ----- When that is right -----

  function StripSentinels(bytes: seq<bv8>): (r: seq<bv8>)
    ensures |r| <= |bytes| && r == bytes[|bytes| - |r|..]
    ensures forall k :: 0 <= k < |bytes| - |r| ==> bytes[k] == NONE_SEEN
    ensures r != [] ==> r[0] != NONE_SEEN
    ensures |bytes| > 0 && bytes[0] != NONE_SEEN ==> r == bytes
  {
    if bytes != [] && bytes[0] == NONE_SEEN then StripSentinels(bytes[1..]) else bytes
  }

  ghost predicate AllEqual(bytes: seq<bv8>, v: bv8) {
    forall k :: 0 <= k < |bytes| ==> bytes[k] == v
  }

  lemma {:induction false} ChainAfter(v: bv8, bytes: seq<bv8>)
    requires v != NONE_SEEN
    ensures Chain(v, bytes) == if AllEqual(bytes, v) then Some(v) else None
  {
    if bytes != [] && bytes[0] == v {
      ChainAfter(v, bytes[1..]);
      assert AllEqual(bytes[1..], v) ==> AllEqual(bytes, v) by {
        assert bytes == [v] + bytes[1..];
      }
    }
  }

  lemma {:induction false} ChainJoin(v: bv8, a: seq<bv8>, b: seq<bv8>)
    ensures Chain(v, a + b) == match Chain(v, a) case None => None case Some(u) => Chain(u, b)
    decreases |a|
  {
    if a == [] {
      assert a + b == b;
    } else {
      ChainJoin(a[0], a[1..], b);
      assert (a + b)[1..] == a[1..] + b;
    }
  }

  lemma EmptyChain()
    ensures Chain(NONE_SEEN, []) == Some(NONE_SEEN)
  {
  }

  lemma BatchSplit(bytes: seq<bv8>, i: nat, count: nat)
    requires |bytes| == count / 4 && i < count / 32
    ensures 8 * (i + 1) <= |bytes| && bytes[..8 * (i + 1)] == bytes[..8 * i] + bytes[8 * i..8 * (i + 1)]
  {
  }

  /** The answer to whole command `i`, last byte first, is its stretch of the scan. */
  lemma BatchIsScanned(groups: seq<Group>, first: nat, count: nat, i: nat, status: seq<bv8>)
    requires |status| == 8 && i < count / 32
    requires forall z :: 0 <= z < 8 ==> status[7 - z] == StatusByte(groups, first + i * 32 + 4 * z)
    ensures 8 * (i + 1) <= count / 4
    ensures status == Scanned(groups, first, count)[8 * i..8 * (i + 1)]
  {
    hide StatusByte;
    var bytes := Scanned(groups, first, count);
    assert 8 * (i + 1) <= count / 4;
    forall j | 0 <= j < 8
      ensures status[j] == bytes[8 * i + j]
    {
      assert status[7 - (7 - j)] == StatusByte(groups, first + i * 32 + 4 * (7 - j));
      UnitInBatch(i, j, count);
    }
  }

  /** The whole bytes of the scan that follow the whole commands. */
  ghost function RestBytes(groups: seq<Group>, first: nat, count: nat): (bytes: seq<bv8>)
    ensures bytes == Scanned(groups, first, count)[8 * (count / 32)..]
    ensures |bytes| == count % 32 / 4
    ensures forall z :: 0 <= z < |bytes| ==> bytes[z] == StatusByte(groups, first + count / 32 * 32 + 4 * z)
    ensures first + count / 4 * 4 == first + count / 32 * 32 + 4 * (count % 32 / 4)
  {
    Scanned(groups, first, count)[8 * (count / 32)..]
  }

  lemma WholeThenRest(groups: seq<Group>, first: nat, count: nat)
    ensures var bytes, whole := Scanned(groups, first, count), 8 * (count / 32);
            whole <= |bytes|
            && Chain(NONE_SEEN, bytes) == match Chain(NONE_SEEN, bytes[..whole])
                                          case None => None
                                          case Some(u) => Chain(u, bytes[whole..])
  {
    var bytes, whole := Scanned(groups, first, count), 8 * (count / 32);
    ChainJoin(NONE_SEEN, bytes[..whole], bytes[whole..]);
    assert bytes[..whole] + bytes[whole..] == bytes;
  }

  lemma UnitInBatch(i: nat, j: nat, count: nat)
    requires i < count / 32 && j < 8
    ensures Unit(8 * i + j, count) == 8 * i + 7 - j
  {
  }

  /** The chain accepts leading start values followed by equal bytes, only those. */
  lemma {:induction false} ChainIs(bytes: seq<bv8>)
    ensures var rest := StripSentinels(bytes);
            Chain(NONE_SEEN, bytes) ==
              if rest == [] then Some(NONE_SEEN) else if AllEqual(rest, rest[0]) then Some(rest[0]) else None
  {
    if bytes != [] {
      if bytes[0] == NONE_SEEN {
        ChainIs(bytes[1..]);
      } else {
        ChainAfter(bytes[0], bytes[1..]);
        assert bytes == [bytes[0]] + bytes[1..];
      }
    }
  }

  /** The whole bytes and the tail all show type `t`. */
  ghost predicate Uniform(bytes: seq<bv8>, tail: bv8, r: nat, t: WpType)
    requires r <= 3
  {
    AllEqual(bytes, Pattern(t)) && (r > 0 ==> LowGroups(tail, r) == LowGroups(Pattern(t), r))
  }

  lemma TailType(v: bv8, tail: bv8, r: nat, t: WpType)
    requires r <= 3
    ensures TypeOf(WithTail(v, tail, r)) == Some(t)
      <==> (if v == NONE_SEEN then r > 0 else v == Pattern(t))
           && (r > 0 ==> LowGroups(tail, r) == LowGroups(Pattern(t), r))
  {
  }

  /** What the scan remembers, that is, all it read except leading start values,
      is not empty and shows type `t` throughout. */
  ghost predicate RestUniform(groups: seq<Group>, first: nat, count: nat, t: WpType) {
    var rest := StripSentinels(Scanned(groups, first, count));
    (rest != [] || count % 4 > 0)
    && Uniform(rest, StatusByte(groups, first + count / 4 * 4), count % 4, t)
  }

  lemma ReportedIs(groups: seq<Group>, first: nat, count: nat, t: WpType)
    ensures Reported(groups, first, count) == Some(t) <==> RestUniform(groups, first, count, t)
  {
    hide LowGroups, Pattern;
    var bytes := Scanned(groups, first, count);
    var rest, tail := StripSentinels(bytes), StatusByte(groups, first + count / 4 * 4);
    ChainIs(bytes);
    PatternIsNoSentinel(t);
    if rest == [] {
      TailType(NONE_SEEN, tail, count % 4, t);
    } else {
      TailType(rest[0], tail, count % 4, t);
    }
  }

  lemma PatternIsNoSentinel(t: WpType)
    ensures Pattern(t) != NONE_SEEN
  {
  }

  lemma UnitTurnsBack(p: nat, count: nat)
    requires p < count / 4
    ensures Unit(p, count) < count / 4 && Unit(Unit(p, count), count) == p
  {
    var q, m := p / 8, p % 8;
    assert (8 * q + 7 - m) / 8 == q && (8 * q + 7 - m) % 8 == 7 - m;
    assert 8 * (count / 32) <= count / 4;
  }

  lemma TailMeansAll(a: Group, b: Group, c: Group, d: Group, r: nat, t: WpType)
    requires 1 <= r <= 3
    ensures LowGroups(Pack(a, b, c, d), r) == LowGroups(Pattern(t), r)
       <==> a == Code(t) && (r >= 2 ==> b == Code(t)) && (r >= 3 ==> c == Code(t))
  {
    assert r == 1 || r == 2 || r == 3;
  }

  /** Whole bytes in scan order and the tail together cover every group once. */
  lemma UniformIsAllGroups(groups: seq<Group>, first: nat, count: nat, t: WpType)
    ensures Uniform(Scanned(groups, first, count), StatusByte(groups, first + count / 4 * 4), count % 4, t)
       <==> AllGroups(groups, first, count, t)
  {
    WholeBytes(groups, first, count, t);
    TailByte(groups, first + count / 4 * 4, count % 4, t);
    assert count == count / 4 * 4 + count % 4;
    if AllGroups(groups, first, count / 4 * 4, t) && AllGroups(groups, first + count / 4 * 4, count % 4, t) {
      assert AllGroups(groups, first, count, t);
    }
  }

  lemma WholeBytes(groups: seq<Group>, first: nat, count: nat, t: WpType)
    ensures AllEqual(Scanned(groups, first, count), Pattern(t)) <==> AllGroups(groups, first, count / 4 * 4, t)
  {
    hide Pack, Pattern, StatusByte, GroupAt;
    var bytes := Scanned(groups, first, count);
    if AllEqual(bytes, Pattern(t)) {
      forall k | first <= k < first + count / 4 * 4
        ensures GroupAt(groups, k) == Code(t)
      {
        var u := (k - first) / 4;
        UnitTurnsBack(u, count);
        assert bytes[Unit(u, count)] == StatusByte(groups, first + 4 * u);
        ByteMeansAll(groups, first + 4 * u, t);
      }
    } else {
      var p :| 0 <= p < |bytes| && bytes[p] != Pattern(t);
      UnitTurnsBack(p, count);
      ByteMeansAll(groups, first + 4 * Unit(p, count), t);
    }
  }

  lemma ByteMeansAll(groups: seq<Group>, g: nat, t: WpType)
    ensures StatusByte(groups, g) == Pattern(t) <==> AllGroups(groups, g, 4, t)
  {
    PatternMeansAll(GroupAt(groups, g), GroupAt(groups, g + 1), GroupAt(groups, g + 2), GroupAt(groups, g + 3), t);
  }

  lemma TailByte(groups: seq<Group>, g: nat, r: nat, t: WpType)
    requires r <= 3
    ensures (r > 0 ==> LowGroups(StatusByte(groups, g), r) == LowGroups(Pattern(t), r))
       <==> AllGroups(groups, g, r, t)
  {
    hide Pack, Pattern, LowGroups;
    if r > 0 {
      TailMeansAll(GroupAt(groups, g), GroupAt(groups, g + 1), GroupAt(groups, g + 2), GroupAt(groups, g + 3), r, t);
    }
  }

  /** The scan starts on a byte that looks like its start value. */
  predicate StartsWithSentinel(groups: seq<Group>, first: nat, count: nat) {
    var bytes := Scanned(groups, first, count);
    bytes != [] && bytes[0] == NONE_SEEN
  }

  /** That first byte is the one of the last four groups of a whole command, or of
      the first four of a shorter range. */
  lemma SentinelPlace(groups: seq<Group>, first: nat, count: nat)
    ensures StartsWithSentinel(groups, first, count) <==>
      count >= 4 && StatusByte(groups, if count >= 32 then first + 28 else first) == 1
  {
    hide StatusByte;
    assert count >= 32 ==> Unit(0, count) == 7;
    assert 4 <= count < 32 ==> Unit(0, count) == 0;
  }

  /** Exactness: unless the first byte read is the start value 0x01, the scan of a
      non-empty range reports a type if and only if every group has it. */
  lemma ScanExact(groups: seq<Group>, first: nat, count: nat, t: WpType)
    requires count > 0 && !StartsWithSentinel(groups, first, count)
    ensures Reported(groups, first, count) == Some(t) <==> AllGroups(groups, first, count, t)
  {
    hide Reported, Uniform, StatusByte, AllGroups, Unit;
    var bytes := Scanned(groups, first, count);
    assert StripSentinels(bytes) == bytes;
    ReportedIs(groups, first, count, t);
    UniformIsAllGroups(groups, first, count, t);
  }

  /** The scan is right about a non-empty range, for every type, if and only if
      it does not start on the start value or what follows shows no one type. */
  lemma ScanRight(groups: seq<Group>, first: nat, count: nat)
    requires count > 0
    ensures (forall t :: Reported(groups, first, count) == Some(t) <==> AllGroups(groups, first, count, t))
       <==> !(StartsWithSentinel(groups, first, count) && exists t :: RestUniform(groups, first, count, t))
  {
    hide Reported, RestUniform, AllGroups, Uniform;
    forall t
      ensures Reported(groups, first, count) == Some(t) <==> RestUniform(groups, first, count, t)
      ensures StartsWithSentinel(groups, first, count) ==> !AllGroups(groups, first, count, t)
    {
      ReportedIs(groups, first, count, t);
      if StartsWithSentinel(groups, first, count) {
        SentinelIsNoType(groups, first, count, t);
      }
    }
    if !StartsWithSentinel(groups, first, count) {
      forall t {
        ScanExact(groups, first, count, t);
      }
    }
  }

  lemma SentinelIsNoType(groups: seq<Group>, first: nat, count: nat, t: WpType)
    requires StartsWithSentinel(groups, first, count)
    ensures !AllGroups(groups, first, count, t)
  {
    hide LowGroups, Pattern, Pack, StatusByte, AllGroups, Unit;
    PatternIsNoSentinel(t);
    UniformIsAllGroups(groups, first, count, t);
  }

  /** Eight groups of which only the first is protected are reported unprotected. */
  lemma SentinelMisleads()
    ensures Reported([1, 0, 0, 0, 0, 0, 0, 0], 0, 8) == Some(Disabled)
    ensures !AllGroups([1, 0, 0, 0, 0, 0, 0, 0], 0, 8, Disabled)
  {
    var groups: seq<Group> := [1, 0, 0, 0, 0, 0, 0, 0];
    assert Scanned(groups, 0, 8) == [1, 0];
    assert Chain(NONE_SEEN, [1, 0]) == Chain(1, [1, 0][1..]);
    assert GroupAt(groups, 0) == 1;
  }
}
