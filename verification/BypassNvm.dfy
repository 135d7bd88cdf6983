/** Persistent settings in the user NVM of the fuel gauge: the bypass setting and
    the date records (mm8xxx_battery_i2c_*.c).

    The chip is abstract.  It holds 32-byte records, answers only while it is
    unsealed, and stores a record only when the inverted checksum matches.  Which
    bus transfers fail, and what a sealed chip answers, are arbitrary. */
module BypassNvm {
  import opened Arithmetic
  import opened FlatImage
  import opened LittleEndian
  import SmartCharging

  const RECORD: nat := 32
  const BYPASS_ADDR: nat := 10
  const FIELD_LEN: nat := 3
  const LENOVO_SETTING: nat := 0xF4
  const MANUFACTURE_DATE: nat := 0xF2
  const ACTIVATE_DATE: nat := 0xF3
  const BYPASS_UNSEAL_CODE: nat := 0x5678_1234
  const SEAL: nat := 0x0020

  type Record = r: seq<byte> | |r| == RECORD witness Zeros(RECORD)

  function Sum(s: seq<byte>): nat {
    if s == [] then 0 else Sum(s[..|s| - 1]) + s[|s| - 1]
  }

  function Checksum(s: seq<byte>): byte {
    0xFF - Sum(s) % 256
  }

  /** Changing one byte changes the sum by the difference. */
  lemma {:induction false} SumUpdates(s: seq<byte>, i: nat, b: byte)
    requires i < |s|
    ensures Sum(s[i := b]) == Sum(s) - s[i] + b
  {
    var t := s[i := b];
    assert t[..|s| - 1] == if i == |s| - 1 then s[..|s| - 1] else s[..|s| - 1][i := b];
    if i < |s| - 1 {
      SumUpdates(s[..|s| - 1], i, b);
    }
  }

  lemma {:induction false} ZerosSum(n: nat)
    ensures Sum(Zeros(n)) == 0
  {
    if n > 0 {
      assert Zeros(n)[..n - 1] == Zeros(n - 1);
      ZerosSum(n - 1);
    }
  }

  /** The checksum brings the bytes of a block to 0xFF modulo 256. */
  lemma ChecksumCompletes(s: seq<byte>)
    ensures (Sum(s) + Checksum(s)) % 256 == 0xFF
  {
  }

  /** It is 0xFF for an erased block, and follows every change of a byte. */
  lemma ChecksumFollows(r: Record, i: nat, b: byte)
    requires i < RECORD
    ensures Checksum(Zeros(32)) == 0xFF
    ensures var now, was: nat, put: nat, had: nat := Checksum(r[i := b]), Checksum(r), b, r[i];
            (now + put) % 256 == (was + had) % 256
  {
    ZerosSum(32);
    SumUpdates(r, i, b);
  }

  function Low(code: nat): (r: nat)
    ensures r < 0x1_0000
  {
    code % 0x1_0000
  }

  function High(code: nat): (r: nat)
    ensures r < 0x1_0000
  {
    code / 0x1_0000 % 0x1_0000
  }

  // ----- The chip -----

  datatype State = State(isSealed: bool, lastWord: nat, selected: nat, window: Record, records: map<nat, Record>)

  function Word(bytes: seq<byte>): nat
    requires |bytes| == 2
  {
    bytes[0] as nat + bytes[1] as nat * 256
  }

  function WordBytes(word: nat): (r: seq<byte>)
    requires word < 0x1_0000
    ensures |r| == 2 && Word(r) == word
  {
    [word % 256, word / 256]
  }

  /** What a successful write to a command register does to the chip. */
  function Answer(s: State, key: nat, reg: nat, bytes: seq<byte>): State {
    if reg == 0x00 && |bytes| == 2 then
      var unseals := s.lastWord == Low(key) && Word(bytes) == High(key);
      s.(isSealed := Word(bytes) == SEAL || (s.isSealed && !unseals), lastWord := Word(bytes))
    else if s.isSealed then s
    else if reg == 0x3E && |bytes| == 2 && Word(bytes) in s.records then
      s.(selected := Word(bytes), window := s.records[Word(bytes)])
    else if reg == 0x40 && |bytes| <= RECORD then
      s.(window := Splice(s.window, 0, bytes))
    else if reg == 0x60 && |bytes| == 1 && bytes[0] == Checksum(s.window) then
      s.(records := s.records[s.selected := s.window])
    else s
  }

  /** A successful write on the bus. */
  datatype Transfer = Transfer(reg: nat, bytes: seq<byte>)

  /** What the driver sends to open the chip with a code and select a record. */
  ghost function Opening(code: nat, target: nat): seq<Transfer>
    requires code < U32 && target < 0x1_0000
  {
    [Transfer(0x00, WordBytes(Low(code))), Transfer(0x00, WordBytes(High(code))),
     Transfer(0x61, [0]), Transfer(0x3E, WordBytes(target))]
  }

  /** The four bytes sent first spell the code, the lowest byte first. */
  lemma OpeningSpells(code: nat, target: nat)
    requires code < U32 && target < 0x1_0000
    ensures var sent := Opening(code, target);
            && |sent| == 4 && sent[0].reg == sent[1].reg == 0x00 && |sent[0].bytes| == |sent[1].bytes| == 2
            && sent[0].bytes[0] as nat + sent[0].bytes[1] as nat * 0x100
               + sent[1].bytes[0] as nat * 0x1_0000 + sent[1].bytes[1] as nat * 0x100_0000 == code
            && sent[2] == Transfer(0x61, [0])
            && sent[3].reg == 0x3E && |sent[3].bytes| == 2
            && sent[3].bytes[0] as nat + sent[3].bytes[1] as nat * 0x100 == target
  {
  }

  class Chip {
    const key: nat
    const outcome: nat -> int
    const noise: (nat, nat) -> byte
    var calls: nat
    var state: State
    ghost var sent: seq<Transfer>

    /** Every transfer since number `from` has succeeded. */
    ghost predicate AllOk(from: nat)
      reads this`calls
    {
      forall k :: from <= k < calls ==> outcome(k) >= 0
    }

    method BulkWrite(reg: nat, data: array<byte>, len: nat) returns (ret: int)
      requires len <= data.Length
      modifies this
      ensures calls == old(calls) + 1 && ret == outcome(old(calls))
      ensures state == if ret < 0 then old(state) else Answer(old(state), key, reg, data[..len])
      ensures sent == if ret < 0 then old(sent) else old(sent) + [Transfer(reg, data[..len])]
    {
      ret := outcome(calls);
      calls := calls + 1;
      if ret >= 0 {
        state := Answer(state, key, reg, data[..len]);
        sent := sent + [Transfer(reg, data[..len])];
      }
    }

    /** Reads the window register. */
    method BulkRead(data: array<byte>) returns (ret: int)
      requires data.Length == RECORD
      modifies this`calls, data
      ensures calls == old(calls) + 1 && ret == outcome(old(calls))
      ensures ret >= 0 && !state.isSealed ==> data[..] == state.window
    {
      var call := calls;
      ret := outcome(call);
      calls := calls + 1;
      if ret < 0 {
        return;
      }
      forall i | 0 <= i < RECORD {
        data[i] := if state.isSealed then noise(call, i) else state.window[i];
      }
    }
  }

  // ----- Parsing -----

  function U16(x: int): nat {
    x % 0x1_0000
  }

  /** A 32-bit word read as a signed number. */
  function ToInt(x: nat): int
    requires x < U32
  {
    if x < 0x8000_0000 then x else x - U32
  }

  function CMod(a: int, b: int): int
    requires b > 0
  {
    a - CDiv(a, b) * b
  }

  /** The triple packed as enable * 100000 + low * 1000 + high. */
  function Parse(data: int): SmartCharging.Bypass {
    SmartCharging.Bypass(U16(CDiv(data, 100000)) != 0, U16(CMod(CDiv(data, 1000), 100)), U16(CMod(data, 1000)))
  }

  /** A setting splits into its digits: three for the high level, two for the low
      one, and the rest, modulo 2^16, says whether it is on. */
  lemma ParseDigits(data: nat)
    ensures Parse(data).high == data % 1000 && Parse(data).low == data / 1000 % 100
    ensures Parse(data).enable <==> data / 100000 % 0x1_0000 != 0
  {
    ModOf(data, 1000);
    ModOf(data / 1000, 100);
    hide CMod;
  }

  lemma ModOf(a: nat, b: nat)
    requires 0 < b < 0x1_0000
    ensures CDiv(a, b) == a / b && CMod(a, b) == a % b == U16(a % b)
  {
    DivModOf(a, b);
  }

  /** Parsing inverts packing. */
  lemma ParseInverts(enable: bool, low: nat, high: nat)
    requires low < 100 && high < 1000
    ensures Parse((if enable then 100000 else 0) + low * 1000 + high) == SmartCharging.Bypass(enable, low, high)
  {
    var e := if enable then 1 else 0;
    var data := e * 100000 + low * 1000 + high;
    assert CDiv(data, 100000) == e;
    assert CDiv(data, 1000) == e * 100 + low && CMod(data, 1000) == high;
    assert CDiv(e * 100 + low, 100) == e && CMod(e * 100 + low, 100) == low;
  }

  // ----- Records -----

  /** A record with a three-byte field overwritten by the low bytes of a number. */
  function Put(r: Record, at: nat, value: nat): Record
    requires at + FIELD_LEN <= RECORD
  {
    Splice(r, at, Digits(value, FIELD_LEN))
  }

  function Get(r: Record, at: nat): nat
    requires at + FIELD_LEN <= RECORD
  {
    Join3(r[at], r[at + 1], r[at + 2])
  }

  /** A field reads back as the number written to it, modulo 2^24. */
  lemma GetPut(r: Record, at: nat, value: nat)
    requires at + FIELD_LEN <= RECORD
    ensures Get(Put(r, at, value), at) == value % 0x100_0000
  {
    hide Join3, Digits;
    var d := Digits(value, 3);
    assert Put(r, at, value)[at] == d[0] && Put(r, at, value)[at + 1] == d[1] && Put(r, at, value)[at + 2] == d[2];
    DigitsWrap(value);
    JoinDigits(value % 0x100_0000);
  }

  lemma DigitsWrap(value: nat)
    ensures Digits(value, 3) == Digits(value % 0x100_0000, 3)
  {
    hide Digits;
    var q, v := value / 0x100_0000, value % 0x100_0000;
    var a, a' := value / 256, v / 256;
    assert a == q * 0x1_0000 + a' && value % 256 == v % 256;
    var b, b' := a / 256, a' / 256;
    assert b == q * 0x100 + b' && a % 256 == a' % 256 && b % 256 == b' % 256;
    DigitsOf(value, a, b, b / 256);
    DigitsOf(v, a', b', b' / 256);
  }

  /** One successful write of the driver: to the bypass field or to a date record. */
  datatype Update = Update(target: nat, value: nat)

  function FieldAt(target: nat): nat {
    if target == LENOVO_SETTING then BYPASS_ADDR else 0
  }

  function Updated(records: map<nat, Record>, us: seq<Update>): map<nat, Record> {
    if us == [] then records
    else
      var before, u := Updated(records, us[..|us| - 1]), us[|us| - 1];
      if u.target in before then before[u.target := Put(before[u.target], FieldAt(u.target), u.value)] else before
  }

  function LastUpdate(us: seq<Update>, target: nat): (k: int)
    ensures -1 <= k < |us|
    ensures k >= 0 ==> us[k].target == target
    ensures forall j :: k < j < |us| ==> us[j].target != target
  {
    if us == [] then -1 else if us[|us| - 1].target == target then |us| - 1 else LastUpdate(us[..|us| - 1], target)
  }

  /** The records are independent: after any run of writes each field holds the
      last number written to its record, and no other byte has changed. */
  lemma {:induction false} RecordsIndependent(records: map<nat, Record>, us: seq<Update>, target: nat)
    requires target in records
    ensures var now, k, at := Updated(records, us), LastUpdate(us, target), FieldAt(target);
            && now.Keys == records.Keys
            && Get(now[target], at) == (if k < 0 then Get(records[target], at) else us[k].value % 0x100_0000)
            && (forall i :: 0 <= i < RECORD && !(at <= i < at + FIELD_LEN) ==> now[target][i] == records[target][i])
  {
    hide Get;
    if us != [] {
      RecordsIndependent(records, us[..|us| - 1], target);
      var before, u := Updated(records, us[..|us| - 1]), us[|us| - 1];
      if u.target == target {
        GetPut(before[target], FieldAt(target), u.value);
      }
    }
  }

  // ----- The driver -----

  class Gauge {
    const chip: Chip
    var setting: SmartCharging.Bypass

    constructor (chip: Chip)
      ensures this.chip == chip && setting == SmartCharging.Bypass(false, 0, 0)
    {
      this.chip, setting := chip, SmartCharging.Bypass(false, 0, 0);
    }

    /** The chip opens for this code: the second half must not read as the seal command. */
    predicate Opens(code: nat) {
      code == chip.key && code < U32 && High(code) != SEAL
    }

    /** The driver's own code opens the chip that has it as its key. */
    lemma KeyOpens()
      ensures Opens(BYPASS_UNSEAL_CODE) <==> chip.key == 0x5678_1234
    {
    }

    /** Unseals the chip and selects a record. */
    method OpenRecord(code: nat, target: nat, data: array<byte>) returns (ret: int)
      requires data.Length == RECORD && target < 0x1_0000
      modifies chip, data
      ensures old(chip.calls) <= chip.calls && (chip.AllOk(old(chip.calls)) ==> ret >= 0)
      ensures chip.state.records == old(chip.state.records)
      ensures target in chip.state.records && ret >= 0 && !chip.state.isSealed ==>
        chip.state.selected == target && chip.state.window == chip.state.records[target]
      ensures Opens(code) && ret >= 0 ==> !chip.state.isSealed
      ensures ret >= 0 && code < U32 ==> chip.sent == old(chip.sent) + Opening(code, target)
    {
      hide Low, High;
      ret := SendWord(0x00, Low(code), data);
      if ret < 0 {
        return;
      }
      ret := SendWord(0x00, High(code), data);
      if ret < 0 {
        return;
      }
      data[0] := 0x00;
      assert data[..1] == [0];
      ret := chip.BulkWrite(0x61, data, 1);
      if ret < 0 {
        return;
      }
      ret := SendWord(0x3E, target, data);
    }

    /** Sends a word, the low byte first. */
    method SendWord(reg: nat, word: nat, data: array<byte>) returns (ret: int)
      requires data.Length == RECORD && word < 0x1_0000
      modifies chip, data
      ensures chip.calls == old(chip.calls) + 1 && ret == chip.outcome(old(chip.calls))
      ensures var bytes := WordBytes(word);
              chip.state == if ret < 0 then old(chip.state) else Answer(old(chip.state), chip.key, reg, bytes)
      ensures chip.sent ==
        if ret < 0 then old(chip.sent) else old(chip.sent) + [Transfer(reg, WordBytes(word))]
    {
      hide Answer;
      data[0], data[1] := word % 256, word / 256;
      assert data[..2] == WordBytes(word);
      ret := chip.BulkWrite(reg, data, 2);
    }

    /** Seals the chip. */
    method Seal(data: array<byte>) returns (ret: int)
      requires data.Length == RECORD
      modifies chip, data
      ensures old(chip.calls) <= chip.calls && (chip.AllOk(old(chip.calls)) ==> ret >= 0)
      ensures chip.state.records == old(chip.state.records)
      ensures ret >= 0 ==> chip.state.isSealed
      ensures ret >= 0 ==> chip.sent == old(chip.sent) + [Transfer(0x00, [0x20, 0x00])]
    {
      ret := SendWord(0x00, SEAL, data);
    }

    /** Reads a three-byte field of a record. */
    method ReadField(code: nat, target: nat, at: nat) returns (value: int)
      requires target < 0x1_0000 && at + FIELD_LEN <= RECORD
      modifies chip
      ensures old(chip.calls) <= chip.calls && (chip.AllOk(old(chip.calls)) ==> value >= 0)
      ensures chip.state.records == old(chip.state.records)
      ensures -1 <= value
      ensures value >= 0 ==> chip.state.isSealed
      ensures value >= 0 && code < U32 ==>
        chip.sent == old(chip.sent) + Opening(code, target) + [Transfer(0x00, [0x20, 0x00])]
      ensures value >= 0 && Opens(code) && target in chip.state.records ==> value == Get(chip.state.records[target], at)
    {
      hide Join3;
      var data := new byte[RECORD](_ => 0);
      var ret := OpenRecord(code, target, data);
      if ret < 0 {
        return -1;
      }
      ret := chip.BulkRead(data);
      if ret < 0 {
        return -1;
      }
      value := Join3(data[at], data[at + 1], data[at + 2]);
      assert !chip.state.isSealed ==> value == Get(chip.state.window, at);
      ret := Seal(data);
      if ret < 0 {
        return -1;
      }
    }

    /** The inverted sum of the 32 bytes. */
    method InvertedSum(data: array<byte>) returns (sum: byte)
      requires data.Length == RECORD
      ensures sum == Checksum(data[..])
    {
      var total := 0;
      for i := 0 to RECORD
        invariant total == Sum(data[..i])
      {
        assert data[..i + 1][..i] == data[..i];
        total := total + data[i] as int;
      }
      assert data[..RECORD] == data[..];
      sum := 0xFF - total % 256;
    }

    /** Reads the window back, stores it under its checksum and seals the chip. */
    method Commit(data: array<byte>) returns (ret: int, ghost sum: byte)
      requires data.Length == RECORD
      modifies chip, data
      ensures old(chip.calls) <= chip.calls && (chip.AllOk(old(chip.calls)) ==> ret >= 0)
      ensures var was := old(chip.state);
              && (was.isSealed ==> chip.state.records == was.records)
              && (chip.state.records == was.records || chip.state.records == was.records[was.selected := was.window])
              && (ret >= 0 && !was.isSealed ==> chip.state.records == was.records[was.selected := was.window])
      ensures ret >= 0 ==> chip.state.isSealed
      ensures ret >= 0 ==>
        chip.sent == old(chip.sent) + [Transfer(0x60, [sum]), Transfer(0x00, [0x20, 0x00])]
      ensures ret >= 0 && !old(chip.state).isSealed ==> (Sum(old(chip.state).window) + sum) % 256 == 0xFF
    {
      sum := 0;
      ret := chip.BulkRead(data);
      if ret < 0 {
        return;
      }
      ChecksumCompletes(data[..]);
      data[0] := InvertedSum(data);
      sum := data[0];
      assert data[..1] == [sum];
      ret := chip.BulkWrite(0x60, data, 1);
      if ret < 0 {
        return;
      }
      ret := Seal(data);
    }

    /** Overwrites a field of a 32-byte buffer with the low bytes of a number. */
    method PutField(data: array<byte>, at: nat, value: nat)
      requires data.Length == RECORD && at + FIELD_LEN <= RECORD
      modifies data
      ensures data[..] == Put(old(data[..]), at, value)
    {
      hide Digits;
      var rest := value;
      ghost var done: seq<byte> := [];
      for i := 0 to FIELD_LEN
        invariant |done| == i && done + Digits(rest, FIELD_LEN - i) == Digits(value, FIELD_LEN)
        invariant data[..] == Splice(old(data[..]), at, done)
      {
        DigitsStep(done, rest, FIELD_LEN - i);
        data[at + i] := rest % 256;
        done := done + [rest % 256];
        rest := rest / 256;
      }
    }

    lemma DigitBytes(value: nat)
      ensures Digits(value, 3) == [value % 256, value / 0x100 % 256, value / 0x1_0000 % 256]
    {
      DigitsOf(value, value / 256, value / 256 / 256, value / 256 / 256 / 256);
    }

    lemma PutBytes(r: Record, at: nat, value: nat)
      requires at + FIELD_LEN <= RECORD
      ensures var now := Put(r, at, value);
              && now[at..at + 3] == [value % 256, value / 0x100 % 256, value / 0x1_0000 % 256]
              && now[..at] == r[..at] && now[at + 3..] == r[at + 3..]
    {
      hide Digits;
      DigitBytes(value);
    }

    /** Rewrites the bypass field of its record: read, modify, write back, checksum. */
    method WriteBypassData(code: nat, value: nat)
      returns (ret: int, ghost block: seq<byte>, ghost sum: byte)
      modifies chip
      ensures old(chip.calls) <= chip.calls && (chip.AllOk(old(chip.calls)) ==> ret == 0)
      ensures ret == 0 || ret == -1
      ensures LENOVO_SETTING in old(chip.state.records) ==> FieldWritten(
        old(chip.state.records), chip.state.records, LENOVO_SETTING, value, ret == 0 && Opens(code))
      ensures ret == 0 ==> chip.state.isSealed
      // On the bus: opening, the block with the new field, its checksum, the seal.
      ensures ret == 0 && code < U32 ==> chip.sent == old(chip.sent) + Opening(code, 0xF4) + [
        Transfer(0x40, block), Transfer(0x60, [sum]), Transfer(0x00, [0x20, 0x00])]
      ensures ret == 0 ==>
        && |block| == 32
        && block[10..13] == [value % 256, value / 0x100 % 256, value / 0x1_0000 % 256]
      ensures ret == 0 && Opens(code) && LENOVO_SETTING in old(chip.state.records) ==>
        && chip.state.records == old(chip.state.records)[LENOVO_SETTING := block]
        && (Sum(block) + sum) % 256 == 0xFF
        && block[..10] == old(chip.state.records)[LENOVO_SETTING][..10]
        && block[13..] == old(chip.state.records)[LENOVO_SETTING][13..]
    {
      hide Digits, Checksum, Opening, Put;
      block, sum := [], 0;
      var data := new byte[RECORD](_ => 0);
      var err := OpenRecord(code, LENOVO_SETTING, data);
      if err < 0 {
        return -1, block, sum;
      }
      err := chip.BulkRead(data);
      if err < 0 {
        return -1, block, sum;
      }
      ghost var was := data[..];
      PutField(data, BYPASS_ADDR, value);
      PutBytes(was, BYPASS_ADDR, value);
      block := data[..];
      assert data[..RECORD] == data[..];
      SpliceWhole(chip.state.window, data[..]);
      err, sum := SendBlock(data, RECORD);
      ret := if err < 0 then -1 else 0;
    }

    /** Sends the first `len` bytes of a block into the window, and stores the window
        under its checksum. */
    method SendBlock(data: array<byte>, len: nat) returns (ret: int, ghost sum: byte)
      requires data.Length == RECORD && len <= RECORD
      modifies chip, data
      ensures old(chip.calls) <= chip.calls && (chip.AllOk(old(chip.calls)) ==> ret >= 0)
      ensures var was, block := old(chip.state), Splice(old(chip.state).window, 0, old(data[..len]));
              && (was.isSealed ==> chip.state.records == was.records)
              && (chip.state.records == was.records || chip.state.records == was.records[was.selected := block])
              && (ret >= 0 && !was.isSealed ==> chip.state.records == was.records[was.selected := block])
              && (ret >= 0 && !was.isSealed ==> (Sum(block) + sum) % 256 == 0xFF)
      ensures ret >= 0 ==> chip.state.isSealed
      ensures ret >= 0 ==> chip.sent == old(chip.sent) + [
        Transfer(0x40, old(data[..len])), Transfer(0x60, [sum]), Transfer(0x00, [0x20, 0x00])]
    {
      hide Checksum, Splice;
      sum := 0;
      ret := chip.BulkWrite(0x40, data, len);
      if ret < 0 {
        return;
      }
      ret, sum := Commit(data);
    }

    /** Rewrites a date record: only its three bytes are sent, the chip keeps the rest. */
    method WriteDate(target: nat, code: nat, date: nat)
      returns (ret: int, ghost block: seq<byte>, ghost sum: byte)
      requires target == MANUFACTURE_DATE || target == ACTIVATE_DATE
      modifies chip
      ensures old(chip.calls) <= chip.calls
      ensures (forall k :: old(chip.calls) <= k < chip.calls ==> chip.outcome(k) >= 0) ==> ret == 0
      ensures ret == 0 || ret == -1
      ensures target in old(chip.state.records) ==> FieldWritten(
        old(chip.state.records), chip.state.records, target, date, ret == 0 && Opens(code))
      ensures ret == 0 ==> chip.state.isSealed
      ensures ret == 0 && code < U32 ==> chip.sent == old(chip.sent) + Opening(code, target) + [
        Transfer(0x40, [date % 256, date / 0x100 % 256, date / 0x1_0000 % 256]),
        Transfer(0x60, [sum]), Transfer(0x00, [0x20, 0x00])]
      ensures ret == 0 && Opens(code) && target in old(chip.state.records) ==>
        && |block| == 32 && block[..3] == [date % 256, date / 0x100 % 256, date / 0x1_0000 % 256]
        && chip.state.records == old(chip.state.records)[target := block]
        && block[3..] == old(chip.state.records)[target][3..] && (Sum(block) + sum) % 256 == 0xFF
    {
      hide Digits, Checksum, Opening;
      block, sum := [], 0;
      var data := new byte[RECORD](_ => 0);
      var err := OpenRecord(code, target, data);
      if err < 0 {
        return -1, block, sum;
      }
      PutField(data, 0, date);
      assert data[..3] == Digits(date, FIELD_LEN);
      DigitBytes(date);
      block := Splice(chip.state.window, 0, data[..3]);
      err, sum := SendBlock(data, 3);
      ret := if err < 0 then -1 else 0;
    }

    /** Stores a bypass setting and caches it as parsed. */
    method WriteBypassSetting(data: nat) returns (ret: int)
      requires data < U32
      modifies this`setting, chip
      ensures old(chip.calls) <= chip.calls
      ensures (forall k :: old(chip.calls) <= k < chip.calls ==> chip.outcome(k) >= 0) ==> ret == 0
      ensures ret == 0 || ret == -1
      ensures LENOVO_SETTING in old(chip.state.records) ==> FieldWritten(
        old(chip.state.records), chip.state.records, LENOVO_SETTING, data, ret == 0 && Opens(BYPASS_UNSEAL_CODE))
      ensures ret == 0 ==> chip.state.isSealed
      ensures setting == if ret == 0 then Parse(ToInt(data)) else old(setting)
      ensures ret == 0 && data < 0x8000_0000 ==> setting == Parse(data)
      ensures ret == 0 ==> old(chip.sent) + Opening(0x5678_1234, 0xF4) <= chip.sent
    {
      ghost var block, sum;
      ret, block, sum := WriteBypassData(BYPASS_UNSEAL_CODE, data);
      if ret != 0 {
        return;
      }
      setting := Parse(ToInt(data));
    }

    /** Reads the bypass setting back and caches it as parsed. */
    method ReadBypassSetting() returns (ret: int)
      modifies this`setting, chip
      ensures old(chip.calls) <= chip.calls
      ensures (forall k :: old(chip.calls) <= k < chip.calls ==> chip.outcome(k) >= 0) ==> ret >= 0
      ensures chip.state.records == old(chip.state.records)
      ensures ret >= 0 && Opens(BYPASS_UNSEAL_CODE) && LENOVO_SETTING in chip.state.records ==>
        ret == Get(chip.state.records[LENOVO_SETTING], BYPASS_ADDR)
      ensures ret >= 0 ==> chip.state.isSealed
      ensures setting == if ret >= 0 then Parse(ret) else old(setting)
    {
      ret := ReadField(BYPASS_UNSEAL_CODE, LENOVO_SETTING, BYPASS_ADDR);
      if ret < 0 {
        return;
      }
      setting := Parse(ret);
    }

    /** Storing a setting and reading it back, both successfully: the number comes
        back, and the cached triple stays, for every number below 2^24; above,
        exactly the excess is lost.  No other byte of any record changes. */
    method StoreThenLoad(data: nat) returns (stored: int, loaded: int)
      requires data < U32 && Opens(BYPASS_UNSEAL_CODE) && LENOVO_SETTING in chip.state.records
      modifies this`setting, chip
      ensures old(chip.calls) <= chip.calls
      ensures (forall k :: old(chip.calls) <= k < chip.calls ==> chip.outcome(k) >= 0) ==> stored == 0 && loaded >= 0
      ensures stored == 0 && loaded >= 0 ==>
        && loaded == data % 0x100_0000 && (loaded == data <==> data < 0x100_0000)
        && setting == Parse(loaded) && chip.state.isSealed
      ensures stored == 0 ==> var was := old(chip.state.records);
        chip.state.records == was[LENOVO_SETTING := Put(was[LENOVO_SETTING], BYPASS_ADDR, data)]
    {
      hide Get, Put, Parse;
      stored := WriteBypassSetting(data);
      GetPut(old(chip.state.records)[LENOVO_SETTING], BYPASS_ADDR, data);
      loaded := ReadBypassSetting();
    }
  }

  /** A write to the field of one record: the whole memory is as before or as
      updated, and certainly updated if `surely`. */
  ghost predicate FieldWritten(was: map<nat, Record>, now: map<nat, Record>, target: nat, value: nat, surely: bool)
    requires target in was
  {
    var updated := was[target := Put(was[target], FieldAt(target), value)];
    (now == was && !surely) || now == updated
  }
}
